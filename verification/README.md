# Link tracker: models and proofs

This project models the link tracker's notification pipeline and the algorithms around it in Dafny 4.11, and
proves what they guarantee. `dafny verify dfyconfig.toml` checks everything.

## What is modelled

The pipeline runs: crawl transaction, scrapper outbox, raw topic, agent inbox, window transaction, agent outbox,
prepared topic, bot inbox, Telegram.

| files | subject |
|---|---|
| `Window.dfy` | the agent's window handling: the worker pool, grouping by chat with shared update objects whose `ChatIDs` are overwritten, arbitrary map order |
| `ScrapperOutbox.dfy`, `AgentOutbox.dfy`, `AgentInbox.dfy`, `BotInbox.dfy` | the four tables, their repositories and the relay jobs |
| `RawLeg.dfy`, `PreparedLeg.dfy`, `Pipeline.dfy` | the two halves of the pipeline as step machines, and both together; any step may be the last one before a crash |
| `AgentConsumer.dfy`, `BotConsumer.dfy` | the two Kafka consumer loops, each proved to take only steps of its machine |
| `Crawl.dfy`, `CrawlRuns.dfy`, `CrawlPool.dfy`, `Pagination.dfy` | one link's crawl, all runs of its crawls, the worker pool over a batch, the walk over the links table |
| `Subscriptions.dfy`, `LinkCache.dfy`, `CacheRace.dfy` | the subscription service over its tables, the cache in front of it, one call at a time and interleaved |
| `LinkText.dfy`, `ArrayLiteral.dfy`, `Frame.dfy` | canonical links, the `text[]` literal, the message frame and field maps |
| `Conversation.dfy`, `Retry.dfy` | the bot's dialogue, the retrier |
| `Records.dfy`, `Machines.dfy`, `Selection.dfy` | the update records and shared helpers; what a run of a step machine is; what it means, by positions, to select from a sequence or to join sequences |

Objects that the code changes in place are classes here; loops of the code are loops here. A step machine's
`Enabled` and `Apply` list the steps; `Run` is a list of steps from the empty start. Sends, inserts, commits and
DLQ writes succeed or fail arbitrarily; a failed send may still have reached the topic; an insert error that is
not a `PgError` may still have stored the row; a Kafka writer that retries may write a message several times.

## What the proofs show about the code

Some of the behaviour people may expect does not hold without a condition. Each is stated exactly.

- An insert error that is not a `PgError` is returned as success, and the consumer commits: the update is lost
  exactly when no row was stored and no other copy exists (`RawLeg.SwallowedLossExact`).
- The agent inbox recognises duplicates by update id alone: a newer version of the same issue is dropped while the
  older row exists (`RawLeg.VersionKeptIff`).
- A redelivered update joins a second window only after cleanup removed the row of the first
  (`RawLeg.SecondWindowMeansCleaned`), and then it can (`RawLeg.RedeliveryRejoins`).
- The agent's consumer stops at a message it cannot accept and never passes it (`RawLeg.PoisonBlocks`). A failed
  crawl of a link without followers produces such a message (`Crawl.ErrorShotAcceptedIff`,
  `Pipeline.UnfollowedFailureBlocks`).
- The agent outbox writes status by update id: one publish can retire the unpublished record of another chat
  (`AgentOutbox.RelayLosesNothingIff`). The bot inbox does the same by shot id (`BotInbox.RelayDropsNothingIff`).
- A message is marked as received although `sendTelegram` stopped at a failing chat (`BotInbox.ReceivedByAllIff`).
- The idempotency key is drawn for every publish: the bot keeps one row per publish, whatever the writer or the
  broker repeats (`PreparedLeg.PublishIsTheUnit`), so a record that a relay published twice is kept and delivered
  twice (`PreparedLeg.RepublishedIsNotMerged`), although `docs/data_flow.md` lists the key as the idempotency
  mechanism.
- The crawl job is not a singleton. A crawl can move a watermark back exactly when the one it read leaves room
  below the present one and everybody who is no further ahead still has a row (`CrawlRuns.LowersIff`); that is also
  when it can uncover a version already enqueued (`CrawlRuns.RepeatedIff`), which the next crawl then repeats
  (`CrawlRuns.NextTellsIff`). `CrawlRuns.OverlapRepeats` is such a run.
- The links cursor compares `created_at` only: a tie at a page end hides rows (`Pagination.VisitsAllIff`). A row of
  unknown type, which the service itself never writes, ends the walk with its page (`Pagination.UntypedStops`);
  without ties the links of known type are still all visited exactly when none comes after such a page
  (`Pagination.VisitsTypedIff`).
- Some links are accepted although fewer than two path elements survive cleaning, and then the crawlers' three-way
  split has no third part (`LinkText.CrawlerSplit`, `LinkText.DotDotIsAccepted`).
- A client without subscriptions cannot be removed (`Subscriptions.RemoveClientIff`); a subscription can only be
  removed with the text it was made with (`Subscriptions.UnsubscribeOkIff`), while its tags can be changed under any
  spelling (`Subscriptions.TagsOkIff`).
- A cache set that started before a commit can outlive the invalidation (`CacheRace.FreshIff`, `CacheRace.StaleSet`).
- The backoff draw panics for delays below 2ns, which includes shifts that wrap to a value below 2ns
  (`Retry.BackoffExact`, `Retry.ShiftOverflows`); with no attempts allowed the retrier reports success without a call (`Retry.NilIff`).

## Model

| member | source | states |
|---|---|---|
| Window.MaxPriorityIsMaximum | internal/agent/application/dto.go:87-97 | the group priority outranks every member's and is a member's or LOW |
| Window.MaxPriorityExact | internal/agent/application/dto.go:87-97 | it is HIGH if a member is, else MEDIUM if a member is, else LOW |
| Window.MaxPriority | internal/agent/application/dto.go:87-97 | the loop computes that maximum |
| Window.FormatGroupDescription | internal/agent/application/dto.go:67-85 | the text is the header and then, cut by cut and nothing else, the number and description of each member in order, a newline between them |
| Records.NatTextValue | internal/agent/application/dto.go:75 | the printed number denotes it, without a leading zero |
| Window.GroupUpdates | internal/agent/application/dto.go:57-65 | the group record carries the last id, a line with every member's description, that one chat, and HIGH, MEDIUM or LOW by the members |
| Window.ProcessUpdates | internal/agent/application/process_case.go:131-169 | whatever the workers' order, the results are the surviving updates as a multiset, each a fresh object; the call never returns exactly when there are updates, no worker and no cancellation |
| Window.SurvivorsExact | internal/agent/application/process_case.go:46-74 | the survivors are the prepared forms of the updates the filter lets through, each once |
| Window.CollectGroups | internal/agent/application/process_case.go:83-88 | each chat's list holds its updates in order, once per mention |
| Window.BatchSingles | internal/agent/application/process_case.go:90-95 | every chat with a single update is filed once, under that update's id |
| Window.GroupWindow | internal/agent/application/process_case.go:97-115 | in any map order the delivered rows cover exactly the addressed chats, each once, by a right record, no row without chats |
| Window.HandleUpdatesWindow | internal/agent/application/process_case.go:76-129 | the rows deliver the surviving updates of those handed out, which are all of them unless the context is cancelled, and it blocks exactly when the pool does |
| Window.ExactlyOneRecord | internal/agent/application/process_case.go:97-115 | even without distinct ids each addressed chat is in exactly one delivered record, once, and no other chat is in any |
| Window.GroupRecordIgnoresChats | internal/agent/application/process_case.go:100-103 | overwriting ChatIDs of shared updates never changes a group record |
| Window.WindowConservation | internal/agent/application/process_case.go:83-115 | with distinct ids each (chat, update) pair is in exactly one record: the update itself, addressed to all chats that list it alone, or the chat's group, whose text has a line with the description for each time it lists the update |
| Window.OrderIndependence | internal/agent/application/process_case.go:90-115 | two iteration orders give the same deliveries up to reordering |
| ScrapperOutbox.MarkAllExact | internal/scrapper/infrastructure/scheduler/scheduler.go:135-150 | a relay stamps exactly the rows whose own send succeeded and keeps every record |
| ScrapperOutbox.MarkedRow | internal/scrapper/infrastructure/repository/sql/outbox_repo.go:108-121 | the row of a successful send gets the time, that of a failed one a retry |
| ScrapperOutbox.CleanedExact | internal/scrapper/infrastructure/repository/sql/outbox_repo.go:123-135 | cleanup removes exactly the rows processed before the cut and leaves the others as they were |
| ScrapperOutbox.ShotsExact | internal/scrapper/infrastructure/scheduler/scheduler.go:142-147 | the topic gains exactly the shots whose send succeeded |
| ScrapperOutbox.ShotsInOrder | internal/scrapper/infrastructure/scheduler/scheduler.go:142-147 | the topic gains them in fetch order, each once |
| ScrapperOutbox.Drain | internal/scrapper/infrastructure/scheduler/scheduler.go:135-150 | if all sends succeed, k relays clear exactly min(n, k times limit) of n pending rows, so ceil(n/limit) relays drain the queue |
| ScrapperOutbox.Relay.AddBatch | internal/scrapper/infrastructure/repository/sql/outbox_repo.go:58-72 | the batch is appended as pending rows under new ids |
| ScrapperOutbox.Relay.UpdateStatus | internal/scrapper/infrastructure/repository/sql/outbox_repo.go:108-121 | success stamps that row, failure counts a retry |
| ScrapperOutbox.Relay.RelayOutboxTx | internal/scrapper/infrastructure/scheduler/scheduler.go:135-150 | rows are marked and shots sent one by one in fetch order |
| ScrapperOutbox.Relay.RelayOutbox | internal/infrastructure/repository/transactor.go:43-69 | on a failed transaction the rows are as before while the attempted sends stay on the topic |
| AgentInbox.Repo.AddRecord | internal/agent/infrastructure/repository/inbox_repo.go:68-85 | a second row with an update id is refused as duplicate, otherwise a pending row is added |
| AgentInbox.Repo.MarkProcessed | internal/agent/infrastructure/repository/inbox_repo.go:119-130 | all rows with a window's update ids become processed |
| AgentInbox.Repo.Cleanup | internal/agent/infrastructure/repository/inbox_repo.go:132-143 | a row goes exactly when it was processed before the cut, every other row stays as it was, the pending ids are the same and ids stay unique |
| AgentInbox.Repo.RelayInbox | internal/agent/infrastructure/scheduler/jobs.go:34-56 | the window's records reach the outbox and its rows are marked together, or nothing changes; which of the two, for every answer of the database and number of workers |
| AgentInbox.MarkExact | internal/agent/infrastructure/repository/inbox_repo.go:44-48 | marking by update id marks exactly the window's rows, because ids are unique |
| AgentInbox.WindowExact | internal/agent/infrastructure/repository/inbox_repo.go:27-42 | a window that runs alone takes exactly the pending rows held by no open window within the gap of the oldest such row, so something whenever there is one |
| AgentInbox.LocksStep | internal/agent/infrastructure/repository/inbox_repo.go:27-42 | open windows keep disjoint sets of pending rows |
| AgentInbox.SpentStep | internal/agent/infrastructure/scheduler/jobs.go:38-56 | a row of a committed window never waits again and joins no other |
| AgentInbox.RepresentedStays | internal/agent/infrastructure/repository/inbox_repo.go:44-53 | no operation takes an update id out of the pending rows and the committed windows |
| AgentInbox.InvStep | internal/agent/infrastructure/repository/inbox_repo.go:22-54 | every operation keeps unique ids, disjoint locks, single use of rows, handled windows, and that an id windowed twice lost its first row |
| RawLeg.InvStep | internal/agent/infrastructure/kafka/consumer/consumer.go:94-122 | every step of crawl, relay, consumer, window and cleanup keeps the leg's invariants |
| RawLeg.Conservation | internal/scrapper/infrastructure/scheduler/scheduler.go:131-150 | over every run each update of a committed crawl is queued, uncommitted on the topic, in the agent's hands, or passed over a swallowed insert error |
| RawLeg.StampedWasSent | internal/scrapper/infrastructure/scheduler/scheduler.go:135-150 | over every run a row carries a processing time only if its own shot is on the topic |
| RawLeg.RepresentedMeans | internal/agent/infrastructure/scheduler/jobs.go:38-56 | in the agent's hands means a pending row, or a window handled in the transaction that marked the row |
| RawLeg.SwallowedLossExact | internal/agent/infrastructure/repository/inbox_repo.go:72-84 | when a swallowed insert error loses the update, and when not |
| RawLeg.ReportedErrorIsSafe | internal/agent/infrastructure/kafka/consumer/consumer.go:110-115 | a reported insert error leaves the offset and every update's safety as they were |
| RawLeg.VersionKeptIff | internal/agent/infrastructure/repository/inbox_repo.go:74-77 | after an answered insert the fetched update itself is stored exactly when no different update with its id was |
| RawLeg.PoisonBlocks | internal/agent/infrastructure/kafka/consumer/tools.go:15-24 | an unacceptable message is never passed, and nothing behind it is ever represented |
| RawLeg.WindowsDisjoint | internal/agent/infrastructure/scheduler/scheduler.go:104-109 | overlapping window relays hold disjoint rows, and each row is in one committed window at most |
| RawLeg.SecondWindowMeansCleaned | internal/agent/infrastructure/repository/inbox_repo.go:44-53 | over every run, cleanups included, a second window holds an update id only after the row of the first has left the table |
| RawLeg.IdInOneWindow | migrations/000005_agent_inbox_outbox.up.sql:16 | so without cleanup no update id joins two windows, however often it is redelivered |
| RawLeg.InsertedIff | internal/agent/infrastructure/repository/inbox_repo.go:68-85 | the fetched update is inserted exactly when no row with its id is left, whatever windows held the id before |
| RawLeg.RedeliveryRejoins | internal/agent/infrastructure/repository/inbox_repo.go:50-53 | a redelivered update that is inserted again can join and commit in a second window |
| AgentConsumer.KafkaConsumer.AddRecord | internal/agent/infrastructure/repository/inbox_repo.go:68-85 | duplicate, stored, reported and dropped errors, and what each leaves in the table |
| AgentConsumer.KafkaConsumer.HandleFailure | internal/agent/infrastructure/kafka/consumer/tools.go:15-24 | the message goes to the DLQ if that works, and the loop ends uncommitted |
| AgentConsumer.KafkaConsumer.Round | internal/agent/infrastructure/kafka/consumer/consumer.go:95-121 | a round is one or two machine steps, and goes on exactly when the message is acceptable, its insert not refused and its commit accepted |
| AgentConsumer.KafkaConsumer.Consume | internal/agent/infrastructure/kafka/consumer/consumer.go:94-122 | the loop is a path of the step machine and stops at the first message that does not pass |
| AgentOutbox.MarkAllExact | internal/agent/infrastructure/scheduler/jobs.go:20-29 | a relay stamps exactly the rows whose update id was published by some record of the batch |
| AgentOutbox.MarkedRetries | internal/agent/infrastructure/repository/outbox_repo.go:36-40 | a row counts a retry for each failed publish of its update id |
| AgentOutbox.CleanedExact | internal/agent/infrastructure/repository/outbox_repo.go:42-45 | cleanup removes exactly the rows processed before the cut and leaves the others as they were |
| AgentOutbox.DrainedRow | internal/agent/infrastructure/scheduler/jobs.go:13-32 | after a relay without failures the pending rows are exactly those that were pending and whose update id was not fetched |
| AgentOutbox.Drain | internal/agent/infrastructure/scheduler/jobs.go:13-32 | k relays without failures leave at most n - k times limit of n pending rows, and exactly that many when update ids are distinct, so ceil(n/limit) relays drain the queue |
| AgentOutbox.RelayLosesNothingIff | internal/agent/infrastructure/repository/outbox_repo.go:36-40 | a batch is free of loss under every pattern of failures exactly when no fetched row shares its update id with another pending row |
| AgentOutbox.SharedIdLosesAGroup | internal/agent/application/dto.go:59 | two groups ending in one update: a failed publish loses the second |
| AgentOutbox.Sentinel.UpdateStatus | internal/agent/infrastructure/repository/outbox_repo.go:105-123 | all rows with the update id are stamped or get a retry |
| AgentOutbox.Sentinel.RelayOutboxTx | internal/agent/infrastructure/scheduler/jobs.go:13-32 | the topic gains exactly the records whose publish succeeds, in order, each once, and exactly the rows with the update id of one of them are stamped |
| AgentOutbox.RelayedExact | internal/agent/infrastructure/scheduler/jobs.go:13-32 | the specification of the relay means just that |
| PreparedLeg.InvStep | internal/bot/infrastructure/kafka/consumer.go:112-135 | every step of outbox relays, bot consumer and delivery relays keeps the leg's invariants |
| PreparedLeg.OutboxConservation | internal/agent/infrastructure/scheduler/jobs.go:13-32 | a written record is queued or a message with the id, link, text and chats of a record with its update id was published; with distinct ids, its own was |
| PreparedLeg.RelayIsARun | internal/agent/infrastructure/scheduler/jobs.go:13-32 | the relay as the scheduler runs it is a run of the machine, whatever Publish answers, with a message that says each published record |
| PreparedLeg.StampedWasPublished | internal/agent/infrastructure/scheduler/jobs.go:13-32 | over every run a row carries a processing time only if a record with its update id was published |
| PreparedLeg.BotIntake | internal/bot/infrastructure/kafka/consumer.go:158-183 | every committed offset is recorded under its key, dead-lettered, or passed over a swallowed error, and keys stay unique |
| PreparedLeg.CommittedIsHeld | internal/bot/infrastructure/repository/inbox.go:60-78 | without foreign messages the bot holds the committed message word for word, unless dead-lettered or swallowed |
| PreparedLeg.RepublishedIsNotMerged | internal/agent/infrastructure/kafka/producer/producer.go:91-97 | messages of different Publish calls are never held by one row, so a record published twice is kept twice |
| PreparedLeg.PublishIsTheUnit | internal/agent/infrastructure/kafka/producer/producer.go:91-97 | rows of the table that hold messages of one Publish call are one row, and only those, whatever the writer or the broker repeats |
| PreparedLeg.DroppedSharesShotId | internal/bot/infrastructure/repository/inbox.go:36-40 | a delivery commit retires exactly the rows sharing a shot id with a relayed one; the unfetched among them are never sent |
| BotConsumer.FindIdempKey | internal/bot/infrastructure/kafka/consumer.go:229-237 | the first idempotency-key header counts, and none reads as the empty key |
| BotConsumer.KafkaConsumer.AddRecord | internal/bot/infrastructure/repository/inbox.go:60-78 | duplicate key, stored, reported and dropped errors, and what each leaves in the table |
| BotConsumer.KafkaConsumer.SendDLQ | internal/bot/infrastructure/kafka/consumer.go:209-227 | a failed DLQ write is an error, a successful one lets the offset move on |
| BotConsumer.KafkaConsumer.ProcessMessage | internal/bot/infrastructure/kafka/consumer.go:158-183 | one machine step; it fails exactly when the message can neither be recorded nor dead-lettered |
| BotConsumer.KafkaConsumer.PostUpdates | internal/bot/infrastructure/kafka/consumer.go:112-135 | the loop is a path of the step machine and stops at the first message that does not pass |
| BotInbox.MarkAndCleanKeepKeysUnique | migrations/000006_bot_inbox.up.sql:14 | marking and cleanup keep keys unique, and cleanup removes exactly the processed rows older than the cut |
| BotInbox.ReachExact | internal/bot/infrastructure/scheduler/scheduler.go:161-173 | a chat is reached exactly when its send and all before it succeed |
| BotInbox.SendTelegram | internal/bot/infrastructure/scheduler/scheduler.go:157-181 | every update counts as received while the messages sent are, update by update, its text to its chats in order up to the first failing send |
| BotInbox.ReceivedByAllIff | internal/bot/infrastructure/scheduler/scheduler.go:161-176 | a received update reached all its chats exactly when no send failed |
| BotInbox.Inbox.AddRecord | internal/bot/infrastructure/repository/inbox.go:60-78 | a taken key is a duplicate, otherwise the row is added, and keys stay unique |
| BotInbox.Inbox.MarkProcessed | internal/bot/infrastructure/repository/inbox.go:112-123 | all rows with the shot ids of the batch become processed |
| BotInbox.Inbox.RelayInboxTx | internal/bot/infrastructure/scheduler/scheduler.go:140-155 | the messages of the batch are sent, then all its shot ids are marked |
| BotInbox.RelayDropsNothingIff | internal/bot/infrastructure/repository/inbox.go:36-40 | a delivery leaves the unfetched rows pending exactly when none shares a shot id with a fetched one |
| Pipeline.SurvivorsDistinct | internal/agent/application/process_case.go:46-74 | a filter that copies ids keeps the ids of a window distinct |
| Pipeline.BatchConserves | internal/agent/infrastructure/scheduler/jobs.go:38-56 | every surviving update of a committed window is, for each of its chats, in exactly one outbox record |
| Pipeline.PublishedIsRead | internal/bot/infrastructure/kafka/dto.go:28-70 | the fields written for a record are read by the bot as its id, link, text and chats |
| Pipeline.EndToEnd | docs/data_flow.md:64-66 | over every run an emitted update is queued, uncommitted or swallowed, or its id waits, or is in a window where the filter dropped it or each chat has one record that says it, which is queued or, with distinct ids, what an accounted-for message says to that chat and the bot accepts |
| Pipeline.EndToEndExact | docs/data_flow.md:64-66 | the same for the update itself, when update ids tell the emitted updates apart and only the scrapper writes to the raw topic |
| Pipeline.UnfollowedFailureBlocks | internal/scrapper/application/crawler_case.go:135-147 | the error record of an unfollowed link on the raw topic stops the agent's offset for good |
| Crawl.PlanExact | internal/scrapper/application/crawler_case.go:156-176 | a subscriber is told about a shot exactly when it is newer than the subscriber's watermark |
| Crawl.PlanSound | internal/scrapper/application/crawler_case.go:171-176 | nothing but fetched shots is enqueued, and none without recipients |
| Crawl.PlanMeans | internal/scrapper/application/crawler_case.go:156-176 | a crawl enqueues, in the order of the shots and each once, those that somebody lags behind, addressed to exactly these in the order of the subscriptions |
| Crawl.WatermarkExact | internal/scrapper/application/crawler_case.go:164-168 | the new watermark is the latest time among the shots enqueued for the subscriber |
| Crawl.Plan | internal/scrapper/application/crawler_case.go:153-176 | the nested loops over shared shot objects compute exactly the plan and the watermarks |
| Crawl.Store.UpdateAll | internal/scrapper/application/crawler_tx.go:18-23 | every watermark is tried in any order and a missing row is noticed |
| Crawl.Store.ProcessLinkTx | internal/scrapper/application/crawler_tx.go:13-35 | watermarks and outbox rows change together or not at all; one missing row fails the transaction |
| Crawl.Store.ProcessLink | internal/scrapper/application/crawler_case.go:120-189 | a processed link's new rows and records, with the empty plan and both failure branches |
| Crawl.Store.ProcessErrorLink | internal/scrapper/application/crawler_case.go:135-147 | a failed crawl enqueues one record with the link and the fixed text for all subscribers read, one by one |
| Crawl.ErrorShotAcceptedIff | internal/agent/application/dto.go:23-33 | that record is valid exactly when somebody follows the link |
| CrawlRuns.NeverDecreases | internal/scrapper/application/crawler_case.go:153-186 | a step never lowers the watermark of a living subscription while crawls do not overlap |
| CrawlRuns.WatermarkMonotone | internal/scrapper/application/crawler_case.go:153-186 | the same over every run without overlapping crawls, with users leaving and coming back meanwhile |
| CrawlRuns.ListedExact | internal/scrapper/application/crawler_case.go:156-176 | a committed crawl lists a subscriber for exactly the shots newer than the watermark it read |
| CrawlRuns.VersionOnce | internal/scrapper/application/crawler_case.go:164-168 | a later crawl enqueues only strictly newer shots for the same subscription, so each version at most once |
| CrawlRuns.SoundRun | internal/scrapper/application/crawler_case.go:153-186 | over every run, overlapping crawls included, crawls under way read each subscriber once and no watermark falls below its start |
| CrawlRuns.LowersIff | internal/scrapper/application/crawler_tx.go:13-35 | some fetch makes a crawl lower a subscriber's watermark exactly when the one it read plus one is below the present one and every reader no further ahead still has a row |
| CrawlRuns.RepeatedIff | internal/scrapper/application/crawler_tx.go:13-35 | when some fetch puts the watermark below a version it covers, so that the version can be enqueued again |
| CrawlRuns.NextTellsIff | internal/scrapper/application/crawler_case.go:156-176 | a crawl that begins now and fetches one version tells a subscriber exactly when it is newer than the watermark |
| CrawlRuns.EnqueuedByOpenIff | internal/scrapper/application/crawler_case.go:164-176 | when a crawl under way enqueues a version itself: it is newer than the watermark read and every reader it concerns still has a row |
| CrawlRuns.OverlapRepeats | internal/scrapper/infrastructure/scheduler/scheduler.go:89-92 | a run of two overlapping crawls that moves the watermark back, after which the newer shot is enqueued again |
| CrawlPool.FinishedIsSequential | internal/scrapper/application/crawler_case.go:88-118 | a finished pool handled each link once, moved each row to the latest shot newer than its watermark if the link committed one, and enqueued the records of every link and nothing else |
| CrawlPool.SequentialMeans | internal/scrapper/application/crawler_case.go:120-189 | sequential processing means just that, for unread, failed and fetched links |
| CrawlPool.Confluence | internal/scrapper/application/crawler_case.go:88-118 | any two complete schedules, with any numbers of workers, agree |
| CrawlPool.Progress | internal/scrapper/application/crawler_case.go:92-102 | every worker step makes progress, and an unfinished pool with a worker can step |
| CrawlPool.AllFoundWhenUnchanged | internal/scrapper/infrastructure/repository/sql/subs_repo.go:243-260 | while the subscribers stay, no watermark misses its row |
| CrawlPool.ProcessLinks | internal/scrapper/application/crawler_case.go:88-118 | the pool terminates with every row moved and every record enqueued as sequential processing would; without workers nothing is handled |
| Pagination.GetLinksBatch | internal/scrapper/infrastructure/repository/sql/link_repo.go:166-221 | the ids of the well-typed rows behind the cursor, at most the limit read, in order, the created_at of the last of them, and the refusal of a negative limit |
| Pagination.NotifySubscribers | internal/scrapper/application/crawler_case.go:58-86 | the loop terminates and visits exactly the walk's rows |
| Pagination.NeverTwice | internal/scrapper/application/crawler_case.go:65-80 | no link is visited twice |
| Pagination.VisitedKnown | internal/scrapper/application/crawler_case.go:65-80 | only rows of the table are visited |
| Pagination.MissedExactly | internal/scrapper/infrastructure/repository/sql/link_repo.go:59-64 | among well-typed rows exactly those tied with a full page's last row, past its limit, are missed |
| Pagination.VisitsAllIff | internal/scrapper/infrastructure/repository/sql/link_repo.go:53-64 | all links are visited exactly when no page boundary falls between equal created_at values |
| Pagination.UntypedStops | internal/scrapper/infrastructure/repository/sql/link_repo.go:201-214 | a row of unknown type ends the walk with its page, and nothing behind the page is visited |
| Pagination.VisitsTypedIff | internal/scrapper/infrastructure/repository/sql/link_repo.go:201-214 | with distinct created_at all rows of known type are visited exactly when none comes after a page that holds another one |
| Subscriptions.Service.Subscribe | internal/scrapper/application/subscription_tx.go:12-49 | the new tables or the unchanged ones, and the reported outcome, in every case |
| Subscriptions.Service.UnSubscribe | internal/scrapper/application/subscription_tx.go:71-101 | deletion by client, resource and stored text, or an unchanged table |
| Subscriptions.Service.AddClient | internal/scrapper/infrastructure/repository/sql/user_repo.go:48-65 | a new user row, or the already-exists outcome |
| Subscriptions.Service.RemoveClient | internal/scrapper/application/subscription_tx.go:103-125 | subscriptions then user are deleted, rolled back when there was no subscription |
| Subscriptions.Service.AddTags | internal/scrapper/application/subscription_tx.go:127-154 | the tag union on the one row, refused for an empty list |
| Subscriptions.Service.ClearTags | internal/scrapper/application/subscription_tx.go:156-179 | the row's tags become empty |
| Subscriptions.Service.GetLinks | internal/scrapper/application/subscription_tx.go:51-69 | exactly the rows of the client, each once, in the order of the table, or not-found for an unknown client |
| Subscriptions.LinksExact | internal/scrapper/infrastructure/repository/sql/subs_repo.go:53-56 | a row is listed exactly when it is the client's |
| Subscriptions.OpKeeps | migrations/000001_init_db.up.sql:3-21 | every operation keeps foreign keys, unique subscriptions and unique paths; a failing one changes nothing |
| Subscriptions.AlwaysConsistent | migrations/000001_init_db.up.sql:3-21 | so do all sequences of operations with arbitrary technical failures |
| Subscriptions.SubscribeExact | internal/scrapper/application/subscription_tx.go:12-49 | which texts a client can subscribe to, which refusal the others get, and the one row and link a success adds |
| Subscriptions.UnsubscribeExact | internal/scrapper/infrastructure/repository/sql/subs_repo.go:23-26 | a success deletes the client's row for that link and text and nothing else |
| Subscriptions.AddClientIff | internal/scrapper/infrastructure/repository/sql/user_repo.go:48-65 | a success for an unknown client only, which it adds and nothing else |
| Subscriptions.SubscribeUnsubscribe | internal/scrapper/application/subscription_tx.go:71-101 | UnSubscribe with the same text restores the subscription table |
| Subscriptions.UnsubscribeOkIff | internal/scrapper/infrastructure/repository/sql/subs_repo.go:23-26 | UnSubscribe succeeds exactly for a client holding the resource under this very text |
| Subscriptions.OtherSpellingFails | internal/scrapper/application/subscription_tx.go:36 | another spelling of the same link cannot unsubscribe |
| Subscriptions.SharedResource | internal/scrapper/infrastructure/repository/sql/link_repo.go:138-164 | two texts with one canonical path share one resource and add at most one link |
| Subscriptions.RawTextSubscribes | internal/scrapper/infrastructure/repository/sql/link_repo.go:142-146 | a text without canonical form subscribes exactly when it is the path of an existing link |
| Subscriptions.RemoveClientIff | internal/scrapper/infrastructure/repository/sql/subs_repo.go:114-129 | removal succeeds exactly for a known client with subscriptions, leaves no trace, and spares the others |
| Subscriptions.AddTagsExact | internal/scrapper/infrastructure/repository/sql/subs_repo.go:33-40 | the named row gets the set union without repetitions, every other row stays |
| Subscriptions.TagsOkIff | internal/scrapper/application/subscription_tx.go:127-179 | tags can be changed exactly on a tracked link of a known client, under any of its spellings, and an empty list is a bad request |
| Subscriptions.ClearTagsExact | internal/scrapper/infrastructure/repository/sql/subs_repo.go:42-46 | the named row loses its tags, every other row stays |
| LinkCache.FmtKeyInjective | internal/scrapper/application/subscription_cached_case.go:128-130 | clients never share a cache key |
| LinkCache.OtherClients | internal/scrapper/application/subscription_cached_case.go:40-119 | an operation changes no other client's list |
| LinkCache.OpKeepsAgreement | internal/scrapper/application/subscription_cached_case.go:40-126 | deleting the one key after a success keeps every cached list current |
| LinkCache.CrawlKeepsAgreement | internal/scrapper/application/crawler_tx.go:18-23 | crawls change last_update only, which the agreement leaves out |
| LinkCache.CachedService.GetLinks | internal/scrapper/application/subscription_cached_case.go:50-71 | hit or miss, the answer holds exactly the client's rows in table order, up to last_update, and which entry is written |
| LinkCache.CachedService.Subscribe | internal/scrapper/application/subscription_cached_case.go:40-48 | same tables and outcome as the uncached service, and the cache stays in agreement |
| LinkCache.CachedService.UnSubscribe | internal/scrapper/application/subscription_cached_case.go:73-81 | same tables and outcome as the uncached service, and the cache stays in agreement |
| LinkCache.CachedService.AddClient | internal/scrapper/application/subscription_cached_case.go:83-89 | needs no invalidation: the cache stays in agreement |
| LinkCache.CachedService.RemoveClient | internal/scrapper/application/subscription_cached_case.go:91-99 | same tables and outcome as the uncached service, and the cache stays in agreement |
| LinkCache.CachedService.AddTags | internal/scrapper/application/subscription_cached_case.go:101-109 | same tables and outcome as the uncached service, and the cache stays in agreement |
| LinkCache.CachedService.ClearTags | internal/scrapper/application/subscription_cached_case.go:111-119 | same tables and outcome as the uncached service, and the cache stays in agreement |
| CacheRace.EveryAnswerWasTrue | internal/scrapper/application/subscription_cached_case.go:50-71 | under every interleaving an answer is a list the database held in some earlier state |
| CacheRace.FreshIff | internal/scrapper/application/subscription_cached_case.go:62-69 | no later answer is older than a given list exactly when neither the entry nor a call under way holds an older one |
| CacheRace.StaleSet | internal/scrapper/application/subscription_cached_case.go:62-69 | a set after the invalidation leaves an outdated entry with nothing under way |
| LinkText.CleanIdempotent | internal/scrapper/domain/resource.go:108 | cleaning a rooted path twice is cleaning it once, and leaves no empty, "." or ".." element |
| LinkText.CanonicalForm | internal/scrapper/domain/resource.go:106-124 | the canonical form is host and surviving elements, cut to two where the source cuts |
| LinkText.CrawlerSplit | internal/scrapper/infrastructure/crawlers/github.go:39-41 | the three-way split has a third part exactly when two elements survive, and what its parts are |
| LinkText.SameResource | internal/scrapper/domain/resource.go:110-121 | only the first two surviving elements matter |
| LinkText.SegmentsOfPath | internal/scrapper/domain/resource.go:97-104 | cleaning sees the same elements as splitPath |
| LinkText.CheckExact | internal/scrapper/domain/resource.go:73-95 | a link is accepted exactly when its path has two elements between the slashes at its ends and, on the second host, the first is the fixed word; and which refusal it gets |
| LinkText.OrdinaryLink | internal/scrapper/domain/resource.go:73-124 | an accepted link without dot elements and outer blanks becomes host/a/b, and the crawler gets a and b back |
| LinkText.DotDotIsAccepted | internal/scrapper/domain/resource.go:78-84 | for every a the path "/a/.." is accepted although nothing of it survives |
| ArrayLiteral.ToTextArrayLiteral | internal/scrapper/infrastructure/repository/query_builder/subs_repo.go:61-74 | the loop prints the literal |
| ArrayLiteral.TwoPassesAreOne | internal/scrapper/infrastructure/repository/query_builder/subs_repo.go:68-69 | the two replacements in their order are one escaping pass |
| ArrayLiteral.OrderMattersIff | internal/scrapper/infrastructure/repository/query_builder/subs_repo.go:68-69 | in the other order they would be right only for texts without a double quote |
| ArrayLiteral.RoundTrip | internal/scrapper/infrastructure/repository/query_builder/subs_repo.go:61-74 | parsing the literal returns the tag list, for every list of strings |
| Frame.Publish | internal/agent/infrastructure/kafka/producer/producer.go:86-89 | the buffer holds magic byte, big-endian schema id and payload |
| Frame.FrameRoundTrip | internal/agent/infrastructure/kafka/consumer/consumer.go:145-167 | the consumer reads back the payload, and the same schema id exactly when it fits 32 bits |
| Frame.BigEndianExact | internal/agent/infrastructure/kafka/producer/producer.go:86-89 | the highest byte of the schema id comes first |
| Frame.UnframeInverse | internal/bot/infrastructure/kafka/consumer.go:185-207 | every accepted message is the frame of what was read from it |
| Frame.MapProcessed | internal/agent/infrastructure/kafka/producer/producer.go:110-123 | the loop builds a map of exactly five fields with the record's values and chats one by one |
| Frame.ProcessedRoundTrip | internal/bot/infrastructure/kafka/dto.go:28-70 | the bot reads the id, link, text and chats that were written |
| Frame.RefusedIff | internal/bot/infrastructure/kafka/dto.go:28-70 | the mapper refuses exactly maps with a missing or mistyped field or chat |
| Frame.RawRefusedIff | internal/agent/infrastructure/kafka/consumer/tools.go:26-91 | the agent's mapper refuses exactly maps with a missing or mistyped field or chat, or a time it cannot parse |
| Frame.RawRoundTrip | internal/scrapper/infrastructure/kafka/producer.go:124-139 | the agent reads back the whole update with its time cut to the second |
| Conversation.CommandIsRead | internal/bot/application/command_service.go:234-250 | a command with or without slash, in any case, and its arguments are read back, the Unicode letters that lower-case into ASCII included |
| Conversation.EveryCommandIsRead | internal/bot/application/command_service.go:35-46 | each of the ten commands is read from its own word, in any case, with or without its slash |
| Conversation.EveryWordIsRead | internal/bot/application/command_service.go:234-250 | any word of small letters is read in any case, and is a command only if it is one of the ten words |
| Conversation.CommandOfExact | internal/bot/application/command_service.go:35-46 | and from no other word |
| Conversation.NothingIsUnknown | internal/bot/application/command_service.go:234-250 | a message without words or with a lone slash is no command |
| Conversation.ChatStates.Get | internal/bot/infrastructure/repository/state_repo.go:20-33 | a missing chat reads as available |
| Conversation.ChatStates.SetURL | internal/bot/infrastructure/repository/state_repo.go:45-54 | the chat awaits tags for that url, other chats stay |
| Conversation.ChatStates.SetTags | internal/bot/infrastructure/repository/state_repo.go:56-65 | only the chat's tags change |
| Conversation.CommandUseCase.Handle | internal/bot/application/command_service.go:89-104 | one message moves only its own chat's session and makes exactly the listed scrapper call |
| Conversation.CommandUseCase.AvailableHandle | internal/bot/application/command_service.go:122-187 | the session and call of an available chat, for every command |
| Conversation.CommandUseCase.AwaitLinkHandle | internal/bot/application/command_service.go:189-207 | a good url moves on, a malformed one waits, anything else ends the dialogue |
| Conversation.CommandUseCase.AwaitTagsHandle | internal/bot/application/command_service.go:209-232 | tags call TrackLink with the stored url, and the dialogue ends in every case |
| Conversation.AvailableIff | internal/bot/application/command_service.go:89-104 | a chat is available exactly after a history of complete episodes |
| Conversation.AwaitTagsIff | internal/bot/application/command_service.go:189-207 | a chat awaiting tags holds the url it was given last |
| Conversation.TrackOnlyAfterDialogue | internal/bot/application/command_service.go:209-232 | in every run TrackLink(u, ts) happens exactly after track, malformed urls, url u and tags ts of that chat |
| Conversation.CommandsOnlyWhenIdle | internal/bot/application/command_service.go:122-187 | in every run the other five scrapper calls happen exactly when the chat's history is a list of complete episodes and the message is that command with the right arguments |
| Retry.BackoffExact | pkg/retry/retry.go:84-93 | the draw panics exactly for delays below 2ns, otherwise the sleep is in [delay/2, delay) |
| Retry.DelayFits | pkg/retry/retry.go:85 | without overflow the delay is min(base * 2^i, max), and when it is below 2ns |
| Retry.ShiftOverflows | pkg/retry/retry.go:11 | with the default base the 37th shift is negative and the draw panics |
| Retry.Do | pkg/retry/retry.go:35-56 | outcome, number of calls and sleeps of the loop |
| Retry.NilIff | pkg/retry/retry.go:35-56 | nil exactly when a call succeeded after only retryable failures with the context live, or no attempt is allowed |
| Retry.PanicIff | pkg/retry/retry.go:52 | a panic exactly when a retryable failure meets a delay below 2ns |
| Retry.StopExact | pkg/retry/retry.go:35-56 | the first attempt that is no retryable failure followed by a sleep decides outcome, number of calls and number of sleeps |
| Retry.EachSleep | pkg/retry/retry.go:35-56 | calls within the limit, each sleep between half its delay and its delay |
| Retry.TotalSleep | pkg/retry/retry.go:35-93 | the total sleep is below attempts * max and below base * (2^attempts - 1) |

## Left out

- Kafka, PostgreSQL, Valkey, Telegram, HTTP and gRPC themselves: topics are sequences read by one consumer in order (one partition), tables are maps or sequences, and their failures are arbitrary answers.
- Rebalancing and several consumers of one group, and several instances of the scrapper (its relay job is a singleton and takes no row locks).
- Statement-level interleaving inside one transaction: a transaction's writes take effect at its commit; a status update that would wait for another relay's row lock does not wait.
- PreparedLeg.InvStep: the bot's pending query hands out any set of unlocked pending rows, not only the oldest up to its limit, which adds runs.
- AgentInbox.InvStep: a window takes any set of free pending rows, which covers statements of others in between and adds runs; `WindowExact` says which rows an undisturbed one takes.
- The filter policy and the summariser: `prepare` is an arbitrary function that copies id and chats; on a summariser error the code trims the text the summariser returned, not the original (internal/agent/application/process_case.go:60-64), and so does any such function.
- Cancellation of a window's context: the pool and the handler are modelled with it; the transaction that follows, whose statements then fail, is not modelled as committing.
- `url.Parse`: links start from a host and a path; percent-encoding is not modelled. `ToLower` leaves letters alone that are not ASCII in either case.
- The Avro codec, the schema registry and the exact RFC3339 text (any text that is read back to the second).
- Identifiers: `uuid.New` is an arbitrary unused key; link ids are positions, since the service never deletes links.
- The order of `array_agg(DISTINCT ...)`, which SQL leaves open: `Union` keeps the order of first appearance.
- Row reads that fail to scan, in repositories other than the links walk.
- The goqu repositories other than the array literal, and `DoWithCode`, whose loop is that of `Do`.
- Concurrent messages of one chat in the bot, reply texts and the mapping of errors to them.
- Microsecond precision of `TIMESTAMPTZ`: watermarks compare exact times.
- Message formatting, metrics, logging, schedulers' timers, circuit breaker, rate limiter and configuration parsing.
- CrawlPool.ProcessLinks: does not model subscribers who come and go during a batch, which CrawlRuns does for one link.
