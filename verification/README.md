# Verified model of the social-network monolith

The monolith keeps users, friends and posts in PostgreSQL, feeds and dialogs in Redis, and talks to its
other half through Kafka.  Its substance is a handful of small protocols; this project models them in
Dafny and proves what they keep over every run.

| module | what it models |
|---|---|
| `Users`, `UnitsOfWork` | mutations that write a users row and an outbox row; transactions and savepoints |
| `OutboxWorkers`, `OutboxTasks` | any number of outbox workers with crashes; the loops of the outbox tasks and the fan-out of a post |
| `KafkaConsumer`, `Stuttering`, `Replication` | the retrying consumer; logs with adjacent repeats; the pipeline end to end |
| `SocialGraph`, `FeedQuery`, `FeedCache`, `PostServices` | the feed query, the cached feeds as a step system, and the service methods that make its steps |
| `SortedSets`, `DialogStore`, `DialogRaces` | the Redis dialog keys, the two scripts, one sender at a time and many interleaved |
| `Decimals`, `SqlWhere`, `SqlBatch` | the SQL text builders: WHERE clauses with bindings, and batch inserts |
| `SocketManager`, `ConnectRace` | the websocket registry, and concurrent connects under the user's lock |
| `EngineFailover` | role discovery and the choice of a database engine |

The classes have the fields of the originals and their methods change them step by step; each is proved
against a function on values, and the theorems are lemmas about those functions, over all runs.

Main results:

- the topic of one crashing and restarting users-outbox worker, and the table of a crashing and
  restarting consumer behind it, are always the password-free users table of some moment, and the
  current one when the outbox and the topic are empty (`Replication.ReplicaFollowsUsers`); with two workers
  this is false (`Replication.TwoWorkersCanDiverge`), but every entry of the replica is still that user's row
  at some moment, and an emptied outbox leaves the current table exactly when, for every user, the row
  published last leaves what his youngest row leaves (`Replication.WorkersReplayMoments`, `WorkersConvergeIff`);
- no row is held by two workers, no committed row is lost, and each is handled once plus once for every crash
  between publishing and deleting it (`OutboxWorkers.Exclusion`, `Conservation`, `PublicationCount`); without
  crashes a follower gets one message of a post if the post is there when his row is handled, otherwise none,
  and nobody else gets any (`OutboxTasks.ConcurrentWorkersDeliverOnce`);
- the answer of the feed statement holds posts of followed authors, each once, newest first, and an omitted
  one is no newer than any of a full answer, however ties are broken (`FeedQuery.AnswerIsNewestOfFriends`);
- a cached feed is the fresh one, or a queued event will repair it, or it was hit by a removed post or an
  empty recompute, and nothing else (`FeedCache.RunsAreCoherent`, `QuiescentAnswersAreFresh`);
- every write of a tree of nested transactions survives exactly when its block and all enclosing blocks
  ended normally, and an exception leaves a block exactly when a path of uncaught blocks leads to a raise or a
  failing commit (`UnitsOfWork.SurvivesIff`, `EndsNormallyIff`);
- a consumer goes on to the next message only after a success within the allowed attempts and a working
  commit, and each ending of a run is the one the outcomes give (`KafkaConsumer.BaseKafkaConsumer.Run`);
- the dialog keys refine a log per pair, and under any interleaving of senders no listing shows another
  pair's message (`DialogStore.SendRefines`, `DialogRaces.ListingsAreIsolated`); no message of a pair is
  lost exactly when at most one of its GETs comes before its first SET (`DialogRaces.AllListedIffOneMiss`);
- the WHERE text parses back to its lookups and means their conjunction under its bindings; a statement
  with base and join filters is well formed exactly when one of them is empty (`SqlWhere.ClauseReadableIff`);
  batch parameter names are distinct exactly when no column is another one followed by a small number
  (`SqlBatch.NamesDistinctIff`), and a statement inserts its rows exactly when clashing names hold equal fields;
- of any number of concurrent connects exactly one is registered and all others are closed with 1008
  (`ConnectRace.ExactlyOneConnects`).

Properties that turned out false of the code are stated with a concrete witness or an exact condition:
`Replication.WorkersConvergeIff` with `TwoWorkersCanDiverge`, `DialogRaces.AllListedIffOneMiss` with `ConcurrentFirstMessageIsLost`,
`SocketManager.LiveEntryLostIff` with `SweepForgetsLiveSocket`,
`SocketManager.SocketConnectionManager.ConnectUser` with `ConnectTwice` and `AddressReused` (a socket connected
again while it is registered), `SortedSets.WindowIsPageIff` (limit 0), `SqlWhere.ClauseReadableIff`, `SqlBatch.NamesDistinctIff` with `ElevenRowsClash`,
`FeedCache.FriendEventRepairsIffNonEmpty` with `EmptiedFeedStaysCached`, `FeedCache.RemovalRepairedIffUnseen`
with `RemovedPostStaysCached`, `EngineFailover.RevivedEngineIsWritable`, `Users.AutocommitMirrorsIff` with `AutocommittedAddIsLost`.

## Assumptions

- `send_message` returning means that the message is in the log (the producer's default does not wait for it).
- The order of `created_at` is the order of commits, and a mutation has a transaction of its own.
- A statement succeeds or fails; the retry of `execute_stmt` (`app/core/clients/db/base.py:199`), which rolls
  the whole session back in between, is not modelled, and atomicity would not hold across it.
- `uuid4()` and `gen_random_uuid()` give fresh ids; ids are numbers.
- A consumer group without a committed offset starts at the beginning of its partition.  The application passes
  no `auto_offset_reset` (`app/server.py:70-80`), and a client that starts at the end instead would skip what
  was published before its first commit.
- The log of `OutboxWorkers` lists rows in the order in which they were handled.  A users row is a message of
  its topic; what an events row becomes depends on the posts table at that time (`OutboxTasks.Delivery`).
- Feed steps: a write and its event are one atomic step, a recompute and its store are another, and the
  clock of posts, events and cache entries gives strictly increasing milliseconds.  Events are delivered in
  any order and any number of times.  A cached feed has no expiry, because `set_feed_cache` does not pass
  its `ex` on (`app/core/services/post/utils.py:74`).
- `CelebrityFeedConsumer` calls `recalculate_celebrity_users_feeds(schema=...)`
  (`app/apps/consumers/celebrity_feed_consumer.py:24`) although the parameter is named `data`; the service
  method is modelled as declared.
- A page of the listing script is no longer than Lua's `unpack` takes (about 8000 keys,
  `app/scripts/redis/get_dialog_with_users.lua:39`); the service asks for 1000.
- `id()` is unique among live objects, a socket serves one user, and a websocket's state as seen from the
  client changes only through `accept` and through the environment.
- The replica's consumer is known from the documentation only (`docs/REVIEW.md:29`): upsert on create and
  update, delete on delete.

## Model

| member | source | states |
|---|---|---|
| `Users.UserRepo.SaveOutbox` | `app/core/repositories/repos/base.py:304-319` | the outbox refuses to write outside a transaction and otherwise appends one row |
| `Users.UserRepo.Add` | `app/core/repositories/repos/user.py:32-35` | the created row and its password-free event appear together; outside a session the row stays and the call fails |
| `Users.UserRepo.Update` | `app/core/repositories/repos/user.py:37-40` | which error an update ends with; otherwise each field that is set takes its new value and every other one stays, row and event change together, and the event turns the public table into the new one |
| `Users.UserRepo.Remove` | `app/core/repositories/repos/user.py:42-45` | a removed row leaves a delete event with its last public data |
| `Users.UserRepo.Run` | `app/core/repositories/repos/user.py:32-45` | in a transaction of its own each mutation moves table and outbox as the history function says; outside of any it changes the table only and fails |
| `Users.TransactMirrors` | `app/core/repositories/repos/user.py:22-45` | every mutation keeps the public table equal to the replayed events and adds at most one event |
| `Users.EventsMirrorUsers` | `app/core/repositories/repos/user.py:22-45` | the events of any history, replayed, give the password-free users table |
| `Users.EveryPrefixIsAMoment` | `app/core/repositories/repos/user.py:32-45` | every prefix of the events is the event history of an earlier moment |
| `Users.PasswordsDoNotLeave` | `app/core/repositories/repos/user.py:22-30` | two histories that differ only in passwords have the same events |
| `Users.AutocommitMirrorsIff` | `app/core/repositories/repos/base.py:307-308` | a mutation outside a transaction leaves the table equal to the replay exactly when it fails or rewrites a row to what it was |
| `Users.AutocommittedAddIsLost` | `app/core/repositories/repos/base.py:307-308` | an add outside a transaction leaves the table different from the replay of the outbox |
| `UnitsOfWork.UnitOfWork.FillReposSession` | `app/core/repositories/unit_of_work.py:117-120` | the unit and all five repositories share one session, or have none |
| `UnitsOfWork.UnitOfWork.Insert` | `app/core/repositories/repos/base.py:277-279` | a repository with the unit's session writes into its transaction, one without commits at once |
| `UnitsOfWork.UnitOfWork.Transaction` | `app/core/repositories/unit_of_work.py:83-115` | an exception leaves a block exactly when a path of uncaught nested blocks leads to a raise or a failing commit, and then nothing has changed; a body of writes with a working commit leaves exactly its rows, in order; what any tree of blocks commits, what a savepoint keeps, and that the session is as before |
| `UnitsOfWork.UnitOfWork.RunBody` | `app/core/repositories/unit_of_work.py:96-110` | a body stops at its first exception that nobody catches, commits nothing by itself and leaves the kept writes of its completed statements pending |
| `UnitsOfWork.UnitOfWork.RunStatement` | `app/core/repositories/unit_of_work.py:96-115` | a write is pending, a raise fails and leaves nothing, a nested block fails only with an uncaught exception of its own and leaves nothing then; caught, it lets the body go on |
| `UnitsOfWork.EndsNormallyIff` | `app/core/repositories/unit_of_work.py:96-115` | a block ends normally exactly when no path of uncaught nested blocks leads to a raise or a failing commit |
| `UnitsOfWork.WritesAreKept` | `app/core/repositories/unit_of_work.py:96-110` | a body of writes keeps their rows in order |
| `UnitsOfWork.SurvivesIff` | `app/core/repositories/unit_of_work.py:83-115` | a row is kept exactly when some write of it sits in a block that ended normally inside blocks that all did |
| `UnitsOfWork.SurvivorHasPath` | `app/core/repositories/unit_of_work.py:90-115` | a kept row comes from a write whose enclosing blocks all ended normally |
| `UnitsOfWork.PathSurvives` | `app/core/repositories/unit_of_work.py:90-115` | a write whose enclosing blocks all ended normally is kept |
| `OutboxWorkers.StepKeepsInv` | `app/core/services/outbox/service.py:49-67` | commits, takes, publishes, deletes and crashes keep locks and holders in step and lose no row |
| `OutboxWorkers.ReachableInv` | `app/core/services/outbox/service.py:49-67` | the same over every run of any number of workers |
| `OutboxWorkers.Exclusion` | `app/core/repositories/repos/base.py:165-168` | no row is held by two workers, and a held row is still in the table |
| `OutboxWorkers.Conservation` | `app/core/services/outbox/service.py:53-67` | at every point of every run a committed row is in the table or already published |
| `OutboxWorkers.StepCounts` | `app/core/services/outbox/service.py:53-67` | what one step, crashes included, adds to the number of publications of a row |
| `OutboxWorkers.PublicationCount` | `app/core/services/outbox/service.py:53-67` | in every run a row is published once if delivered, plus once for each crash between its publication and its deletion |
| `OutboxWorkers.StepKeepsOnce` | `app/core/services/outbox/service.py:53-67` | without a crash a row is in the log once or not at all, exactly as its progress says |
| `OutboxWorkers.ExactlyOnce` | `app/core/services/outbox/service.py:53-67` | the same over every crash-free run |
| `OutboxWorkers.DrainedOnce` | `app/core/services/outbox/service.py:53-67` | a crash-free run that empties the table has published each committed row once and nothing else |
| `OutboxWorkers.OneWorkerStep` | `app/core/services/outbox/service.py:50-67` | a single worker deletes from the oldest end and publishes the oldest row only |
| `OutboxWorkers.OneWorkerLog` | `app/core/services/outbox/service.py:41-67` | one worker, crashing anywhere: the log is the commit history up to some row with adjacent repeats only, all of it once the table is empty |
| `OutboxWorkers.TwoWorkersReorder` | `app/core/repositories/repos/base.py:165-168` | two workers can publish out of commit order without any crash |
| `Stuttering.StuttersCompose` | `app/core/services/outbox/service.py:53-67` | at-least-once reading of an at-least-once log is again a history with adjacent repeats |
| `OutboxTasks.OutboxService.CreateSendPostToAllConsumersEvents` | `app/core/repositories/repos/outbox.py:16-43` | one events row per current follower of the author, none for anybody else |
| `OutboxTasks.OutboxService.CreatePost` | `app/core/services/post/service.py:41-61` | for a known author and a working broker the post, the fan-out of its events and its feed event appear together; otherwise nothing does |
| `OutboxTasks.OutboxService.ProcessingServiceEvents` | `app/core/services/outbox/service.py:69-87` | published exactly when the type is known, the post exists and the broker takes it; an unknown type or a missing post is an unsuccessful response, a broker error is raised |
| `OutboxTasks.OutboxService.ProcessingSendPostToFriendsEvent` | `app/core/services/outbox/service.py:89-111` | the message goes to the consumer, is keyed by the consumer and carries the current post; a missing post is an error |
| `OutboxTasks.OutboxService.ProcessingOneEvent` | `app/core/services/outbox/service.py:27-39` | one transaction takes the oldest row, delivers or drops it, or rolls back when the broker fails |
| `OutboxTasks.OutboxService.ProcessingOneUserRow` | `app/core/services/outbox/service.py:113-131` | one transaction publishes the oldest users row, its id as key, with its action, id and profile, and deletes it; or it rolls back, for a row without an id or a failing broker |
| `OutboxTasks.OutboxService.ProcessingEventsTask` | `app/core/services/outbox/service.py:15-39` | over any number of rounds in which others insert rows and change posts: what was handled and what is left is what came in, the topic got each handled row as the posts table of its round makes it, undeliverable rows are dropped, and a failing broker ends the loop with its row in place |
| `OutboxTasks.OutboxService.ProcessingUsersOutboxTask` | `app/core/services/outbox/service.py:41-67` | the same for the users outbox: the topic got one message for every handled row, in order, with its id as key, its action, id and profile; only a row without an id or a failing broker ends the loop, with the row in place |
| `OutboxTasks.MessagesCarryEvents` | `app/core/services/outbox/service.py:113-131` | the events read off the messages of the rows made from any events are those events |
| `OutboxTasks.EachFollowerOnce` | `app/core/services/outbox/service.py:89-111` | draining the fan-out of a surviving post, among rows of other posts, gives each follower one message and others none, keyed by the addressee, with the post's text, author and update time |
| `OutboxTasks.SameTable` | `app/core/services/outbox/service.py:89-111` | with a posts table that stays as it is, what is sent depends on the handled rows only |
| `OutboxTasks.AddedOnce` | `app/core/repositories/repos/outbox.py:22-32` | a user gets one message from the fan-out rows exactly when one of them names him |
| `OutboxTasks.HandledIsDelivered` | `app/core/services/outbox/service.py:89-111` | a user gets one message for each handling of a row that names him and finds the post |
| `OutboxTasks.EveryMessageHasARow` | `app/core/services/outbox/service.py:89-111` | every message sent comes from a handled row, goes to and is keyed by its consumer, and carries id, text, author and update time of its post as it was then |
| `OutboxTasks.ConcurrentWorkersDeliverOnce` | `app/core/services/outbox/service.py:27-39` | any number of workers, without a crash until the table is empty, while posts come, change and go: a follower's row is handled once and gives him one message exactly when the post is there then; nobody else gets any |
| `OutboxTasks.SurvivingPostReachesAll` | `app/core/services/outbox/service.py:27-39` | a post that is there whenever one of its own rows is handled reaches every follower in one message |
| `KafkaConsumer.BaseKafkaConsumer.Run` | `app/core/clients/kafka/consumer/base.py:74-92` | for any script of handler and commit outcomes: every committed message succeeded within the attempts, and the ending is the one the outcomes of the next message give; the process is not killed without a death; `once` stops after one success; no message is tried more than `process_retries` times; the client is always stopped |
| `KafkaConsumer.BaseKafkaConsumer.ReadMessages` | `app/core/clients/kafka/consumer/base.py:94-110` | the offset moves only past messages that succeeded, whether or not the commit then raises; each message but the last had its first success within the attempts and a working commit after it; `RetriesExceeded` means that all attempts at the committed offset raised |
| `KafkaConsumer.BaseKafkaConsumer.ReadMessage` | `app/core/clients/kafka/consumer/base.py:94-110` | one message: the loop goes on only after a success within the attempts and a working commit, and otherwise ends as the outcomes say; the offset moves by one at most |
| `KafkaConsumer.BaseKafkaConsumer.TryMessage` | `app/core/clients/kafka/consumer/base.py:98-107` | the first success within `process_retries` attempts is a success, and nothing is tried after it; as many exceptions in a row are a failure; killed only by a death within the attempts |
| `KafkaConsumer.NeverKilled` | `app/core/clients/kafka/consumer/base.py:98-108` | without deaths, and with enough outcomes for all attempts, no run is killed |
| `KafkaConsumer.BaseKafkaConsumer.RunAgainAndAgain` | `app/core/clients/kafka/consumer/base.py:74-110` | over any sequence of runs the offset never goes back and the account of attempts is kept |
| `KafkaConsumer.EarlierSucceededFirst` | `app/core/clients/kafka/consumer/base.py:94-110` | before a message is tried every earlier one has succeeded, so first successes are in log order |
| `KafkaConsumer.CommittedSucceeded` | `app/core/clients/kafka/consumer/base.py:94-110` | every message below the committed offset was processed successfully |
| `KafkaConsumer.EffectsStutter` | `app/core/clients/kafka/consumer/base.py:94-110` | effects take place in log order with adjacent repeats, at most one message ahead of the offset |
| `Replication.StutterReplays` | `docs/REVIEW.md:29` | adjacent repeats do not change what upserts and deletes build |
| `Replication.TopicReplaysAMoment` | `app/core/services/outbox/service.py:41-67` | replaying what one crashing worker has published gives the public users table of some moment, and of now when the outbox is empty |
| `Replication.PublishedMessages` | `app/core/services/outbox/service.py:113-131` | the messages made from the rows of any publication log carry the events of that log |
| `Replication.PublishHistory` | `app/core/services/outbox/service.py:41-67` | the users task on the outbox of a whole history leaves a topic whose events are that history; replayed, they give the current public users table |
| `Replication.ReplicaFollowsUsers` | `app/core/services/outbox/service.py:41-67` | the same for the table of a crashing consumer of that topic |
| `Replication.EntryIsOfAPrefix` | `app/core/services/outbox/service.py:53-67` | whatever the order and the repeats, each entry of the replica is the one after some prefix of the history |
| `Replication.ConvergesIff` | `app/core/services/outbox/service.py:53-67` | once every row is published the replica is right exactly when, for every user, the row published last leaves what his youngest row leaves |
| `Replication.InOrderConverges` | `app/core/services/outbox/service.py:53-67` | when each user's rows keep their order, with repeats, the order across users does not matter once all are published |
| `Replication.WorkersReplayMoments` | `app/core/services/outbox/service.py:41-67` | any number of crashing workers: every entry is that user's public row at some moment |
| `Replication.WorkersConvergeIff` | `app/core/services/outbox/service.py:41-67` | the same for any run of any number of workers that empties the outbox |
| `Replication.WorkersConverge` | `app/core/services/outbox/service.py:41-67` | any number of workers that keep each user's rows in order leave the current table once the outbox is empty |
| `Replication.TwoWorkersCanDiverge` | `app/core/services/outbox/service.py:53-67` | two workers can drain the outbox and leave the replica on an old value |
| `FeedQuery.JoinIsNewest` | `app/core/services/post/service.py:210-221` | the join repeats and loses nothing, because friendship edges are unique |
| `FeedQuery.OrderedRows` | `migrations/versions/2026-04-18_1_add_friends_and_post.py:38-42` | the joined rows in any order are exactly the posts of followed authors, each once |
| `FeedQuery.AnswerIsNewestOfFriends` | `app/core/services/post/service.py:208-221` | ties broken in any way, any size, 0 meaning no limit: posts of followed authors, each once, newest first, and an omitted one is no newer than any of a full answer |
| `FeedQuery.OrderIsUnique` | `app/core/services/post/service.py:219-221` | rows of different instants have one newest-first order |
| `FeedQuery.QueryAnswersFeed` | `app/core/services/post/service.py:208-221` | for posts of different instants the statement has one answer, the feed function of the cache model |
| `FeedQuery.FeedIsNewestOfFriends` | `app/core/services/post/service.py:208-221` | that feed holds posts of followed authors once each, strictly newest first, and an omitted one is older than all of a full feed |
| `FeedQuery.NewestOrdered` | `app/core/services/post/service.py:210-221` | for posts of different instants the uncut feed has exactly the posts of followed authors, strictly newest first |
| `FeedQuery.RemovalShows` | `app/core/services/post/service.py:96-114` | removing a post changes exactly the feeds that showed it |
| `FeedCache.NextIsWellFormed` | `app/core/services/post/service.py:41-230` | every step keeps posts in creation order and cache and event stamps in the past |
| `FeedCache.CreateAccounted` | `app/core/services/post/service.py:41-61` | a new post leaves an event that will repair every follower's entry, and touches no other |
| `FeedCache.UpdateAccounted` | `app/core/services/post/service.py:74-94` | a rewritten post does, too |
| `FeedCache.RemoveAccounted` | `app/core/services/post/service.py:96-114` | a removed post disturbs only the entries of its author's followers |
| `FeedCache.FriendAccounted` | `app/core/services/user/service.py:74-116` | an edge change disturbs one user's entry and leaves an event newer than that entry |
| `FeedCache.DeliverAccounted` | `app/core/services/post/service.py:131-198` | an event that is acknowledged has repaired what it was to repair, or passed it on to the celebrity topic, or met an empty feed |
| `FeedCache.StepKeepsCoherent` | `app/core/services/post/service.py:116-230` | every step keeps: fresh, or repaired by a queued event, or tainted by one of the two cases |
| `FeedCache.RunsAreCoherent` | `app/core/services/post/service.py:116-230` | the same over every run, with reordered and repeated deliveries |
| `FeedCache.QuiescentStaleIffTainted` | `app/core/services/post/service.py:131-198` | with all events acknowledged the wrong entries are exactly the tainted ones |
| `FeedCache.UntroubledIsUntainted` | `app/core/services/post/service.py:131-198` | without removals and empty recomputes nothing is tainted |
| `FeedCache.CachedOrQueued` | `app/core/services/post/service.py:116-198` | in such a run each answer is the fresh feed, or a newer friend event or an event of a followed author is queued |
| `FeedCache.QuiescentAnswersAreFresh` | `app/core/services/post/service.py:116-129` | in such a run, once drained, the cached answer is the uncached one |
| `FeedCache.FriendEventRepairsIffNonEmpty` | `app/core/services/post/utils.py:69-70` | a newer friend event repairs an entry exactly when the recomputed feed is not empty |
| `FeedCache.RemovalRepairedIffUnseen` | `app/core/services/post/service.py:158-160` | after a removal and its event an entry is wrong exactly when it showed the post |
| `FeedCache.RemovalStales` | `app/core/services/post/service.py:96-114` | the removal itself makes a right entry wrong exactly when it showed the post |
| `FeedCache.NoPostNoRepair` | `app/core/services/post/service.py:158-160` | an event whose post is gone repairs nothing |
| `FeedCache.RemovedPostStaysCached` | `app/core/services/post/service.py:158-160` | a run from the start that ends with nothing queued and an entry that shows a removed post |
| `FeedCache.EmptiedFeedStaysCached` | `app/core/services/post/utils.py:69-70` | a run from the start that ends with nothing queued and an entry of a user who follows nobody any more |
| `PostServices.PostService.CreatePost` | `app/core/services/post/service.py:41-61` | one step of the cache model: the post and its event appear together; fails exactly for an unknown author |
| `PostServices.PostService.UpdatePost` | `app/core/services/post/service.py:74-94` | one step of the cache model: rewrites text and update time of that post only, with one event; succeeds exactly on the author's own post |
| `PostServices.PostService.RemovePost` | `app/core/services/post/service.py:96-114` | one step of the cache model: exactly the returned post leaves the table, with one event; succeeds exactly on the author's own post |
| `PostServices.PostService.AddToFriends` | `app/core/services/user/service.py:74-96` | refuses oneself, then unknown users; otherwise the edge is there, with an event exactly when it is new |
| `PostServices.PostService.RemoveFromFriends` | `app/core/services/user/service.py:98-116` | removes an existing edge with an event, refuses a missing one |
| `PostServices.PostService.SetFeedCache` | `app/core/services/post/utils.py:60-75` | an empty feed or a blocked user stores nothing, and no block key is left behind |
| `PostServices.PostService.GetUserFriendsPostsAndCached` | `app/core/services/post/service.py:200-230` | answers the fresh feed and stores it with the time of the query, unless it is empty |
| `PostServices.PostService.GetFriendsLastPosts` | `app/core/services/post/service.py:116-129` | answers the entry if there is one, otherwise the fresh feed, which is then cached with the time of the query unless it is empty |
| `PostServices.PostService.ClearFollowersCache` | `app/core/services/post/utils.py:53-58` | the chunks together drop the entries of all given users and no other |
| `PostServices.PostService.UpdateUserFeedFromEvent` | `app/core/services/post/service.py:131-180` | a friend event newer than the entry recomputes it, an older one does nothing; a post event drops the entries of fewer than 100000 followers and otherwise asks the celebrity topic to; a missing post or user fails |
| `PostServices.PostService.RecalculateCelebrityUsersFeeds` | `app/core/services/post/service.py:182-198` | drops the entries of all followers; fails exactly for a missing post |
| `PostServices.PostService.ProcessMessage` | `app/apps/consumers/feed_consumer.py:23-42` | a failed handler is acknowledged like a successful one |
| `PostServices.PostService.DrainEvents` | `app/core/services/post/service.py:131-198` | once writers pause the backlog drains, celebrity messages included, and only tainted entries stay wrong |
| `PostServices.ShrinksBacklog` | `app/core/services/post/service.py:162-171` | a post event becomes at most one celebrity message, any other event nothing |
| `SortedSets.ZAddSorts` | `app/scripts/redis/send_message_to_user.lua:37` | the index stays ordered with one entry per member, a repeated member moving |
| `SortedSets.WindowIsPageIff` | `app/scripts/redis/get_dialog_with_users.lua:20-28` | the script's index window is the page at offset and limit, except that limit 0 at offset 0 means everything |
| `SortedSets.PagesConcatenate` | `app/scripts/redis/get_dialog_with_users.lua:16-28` | consecutive pages neither skip nor repeat |
| `SortedSets.AllPages` | `app/scripts/redis/get_dialog_with_users.lua:16-28` | enough pages from the start give the whole |
| `DialogStore.ListingsConcatenate` | `app/scripts/redis/get_dialog_with_users.lua:16-47` | listing page after page, in either order, gives every message of the dialog once |
| `DialogStore.NoPayloadIsMissing` | `app/scripts/redis/get_dialog_with_users.lua:39-45` | when every indexed message has its payload the filter drops nothing |
| `DialogStore.SendKeepsInv` | `app/scripts/redis/send_message_to_user.lua:30-38` | the script keeps every index ordered and made of messages of its own conversation and pair |
| `DialogStore.SendRefines` | `app/scripts/redis/send_message_to_user.lua:30-38` | a send extends the log of its pair by one message and leaves every other pair's as it was |
| `DialogStore.PairIsUnordered` | `app/core/services/dialogs/utils.py:27-42` | two users have one key whoever writes first, and different twos have different keys |
| `DialogStore.DialogUtils.GetOrCreateDirectConversation` | `app/core/services/dialogs/utils.py:27-55` | a pair keeps its conversation in both directions, and gets a new one when it has none |
| `DialogStore.DialogUtils.SendMessageToUserByScript` | `app/core/services/dialogs/utils.py:70-98` | the four keys after the script and its two counters |
| `DialogStore.DialogUtils.SendMessageToUserProcedure` | `app/core/services/dialogs/utils.py:110-129` | the keys go on holding exactly what each pair has sent, this message included |
| `DialogStore.DialogUtils.GetDialog` | `app/scripts/redis/get_dialog_with_users.lua:13-47` | the payloads of the window, in the asked order |
| `DialogStore.DialogUtils.GetDialogWithUsersProcedure` | `app/core/services/dialogs/utils.py:131-162` | the newest 1000 messages of the pair, newest first, each with its text and time, from its sender to the other of the two; an error exactly without a conversation |
| `DialogStore.CollectItems` | `app/core/services/dialogs/utils.py:151-161` | each message with its text and time, from its sender, to the first user if the second one sent it and otherwise to the second |
| `DialogStore.ListingIsNewest` | `app/core/services/dialogs/utils.py:144-150` | the last window of the index is the newest part of the log |
| `DialogStore.NewestIsUnique` | `app/core/services/dialogs/utils.py:144-150` | a log has only one newest-first listing |
| `DialogStore.BothSeeTheSame` | `app/core/services/dialogs/utils.py:151-161` | two newest-first listings of one log by its two users are the same, item by item |
| `DialogStore.ListBothWays` | `app/core/services/dialogs/utils.py:131-162` | on any store the calls for (a, b) and for (b, a) give one answer |
| `DialogRaces.CommandKeepsStore` | `app/core/services/dialogs/utils.py:27-129` | every GET, SET and script call of interleaved senders keeps the keys well formed |
| `DialogRaces.CommandKeepsSender` | `app/core/services/dialogs/utils.py:110-129` | and keeps what every other sender relies on between its calls |
| `DialogRaces.ReachableInv` | `app/core/services/dialogs/utils.py:110-129` | both over every interleaving |
| `DialogRaces.ListingsAreIsolated` | `app/core/services/dialogs/utils.py:70-129` | no listing ever shows a message of another conversation or from outside the pair, and no indexed message is without payload |
| `DialogRaces.VisibleIffConversationKept` | `app/core/services/dialogs/utils.py:43-54` | at any point a sent message is listed exactly when its pair has kept the conversation it was sent to |
| `DialogRaces.StoredIffSet` | `app/core/services/dialogs/utils.py:54` | the direct key of a pair exists exactly after a SET of the pair |
| `DialogRaces.MintedIffMisses` | `app/core/services/dialogs/utils.py:43-54` | a fresh conversation id is used exactly when the GET came before every SET of the pair |
| `DialogRaces.OneMissKeeps` | `app/core/services/dialogs/utils.py:43-54` | when at most one GET of a pair misses, each of its sent messages is listed |
| `DialogRaces.TwoMissesLose` | `app/core/services/dialogs/utils.py:43-54` | of two requests that both missed, one message is not listed |
| `DialogRaces.AllListedIffOneMiss` | `app/core/services/dialogs/utils.py:27-129` | when all requests of a pair are done, all their messages are listed exactly when at most one of their GETs came before the first SET |
| `DialogRaces.ConcurrentFirstMessageIsLost` | `app/core/services/dialogs/utils.py:43-54` | two first messages that both miss the key: one is not listed |
| `Decimals.DecimalInjective` | `app/core/repositories/repos/base.py:292-293` | different row indices are written differently |
| `SqlWhere.FirstBadKeyRaises` | `app/core/repositories/repos/base.py:345-350` | a filter that does not resolve raises the error of its first bad key |
| `SqlWhere.PlainKey` | `app/core/repositories/repos/base.py:345-351` | a key without a double underscore is equality with that column, or an unknown attribute |
| `SqlWhere.ResolvesIffAllDo` | `app/core/repositories/repos/base.py:344-351` | the builder returns exactly when every key has a known column and operator, with the lookups in order |
| `SqlWhere.SuffixedKey` | `app/core/repositories/repos/base.py:345-351` | `column__suffix` is read as that column and that operator, whatever underscores the column has |
| `SqlWhere.BadKey` | `app/core/repositories/repos/base.py:346-350` | an unknown column is refused first, then an unknown suffix |
| `SqlWhere.WordSuffix` | `app/core/repositories/repos/base.py:62-65` | the operators of `is`, `is_not`, `like` and `ilike` |
| `SqlWhere.SuffixWithoutOperator` | `app/core/repositories/repos/base.py:349-350` | `between`, `in` and `not_in` are refused |
| `SqlWhere.CollectWhereString` | `app/core/repositories/repos/base.py:326-358` | the text and bindings of the resolved lookups, or the error of the first bad key |
| `SqlWhere.ParseRendered` | `app/core/repositories/repos/base.py:356-358` | the text determines the conditions: parsing it gives them back in order |
| `SqlWhere.WhereStringParses` | `app/core/repositories/repos/base.py:333-358` | for a repository with plain names the returned text parses back to the given lookups |
| `SqlWhere.WhereStringMeans` | `app/core/repositories/repos/base.py:333-358` | under the returned bindings the conditions hold of exactly the rows that match all lookups |
| `SqlWhere.WhereTextSelects` | `app/core/repositories/repos/base.py:333-358` | the returned text, read back, selects under the returned bindings exactly the rows that match all lookups |
| `SqlWhere.PlainKeySelects` | `app/core/repositories/repos/base.py:333-358` | `{column: value}` selects exactly the rows whose column is that value |
| `SqlWhere.ComparisonSelects` | `app/core/repositories/repos/base.py:55-61` | what `lt`, `le`, `gt`, `ge`, `eq` and `neq` select among numbers |
| `SqlWhere.LastWins` | `app/core/repositories/repos/base.py:405-406` | of merged filters with one key the last one's value is bound |
| `SqlWhere.BoundRightIff` | `app/core/repositories/repos/base.py:352-357` | merged filters keep every lookup's value exactly when equal keys carry equal values |
| `SqlWhere.TextMeansLookups` | `app/core/repositories/repos/base.py:356-358` | with every lookup bound to its own value the merged text means the conjunction |
| `SqlWhere.CollectJoinWhereString` | `app/core/repositories/repos/base.py:393-407` | text and bindings of all joined lookups in order, or the first error; the caller's dictionary is extended by the joins that resolved before it |
| `SqlWhere.JoinsResolveIffAllDo` | `app/core/repositories/repos/base.py:399-407` | the filters of the joins resolve exactly when each one does |
| `SqlWhere.FirstBadJoinRaises` | `app/core/repositories/repos/base.py:399-407` | otherwise the first bad join's error is raised, after the joins before it |
| `SqlWhere.JoinsMeanAll` | `app/core/repositories/repos/base.py:399-407` | a row matches the merged lookups exactly when it matches those of every join |
| `SqlWhere.JoinedTextSelects` | `app/core/repositories/repos/base.py:393-407` | when equal keys carry equal values the joined text selects, under the merged bindings, exactly the rows that match all lookups of all joins |
| `SqlWhere.ClauseReadableIff` | `app/core/repositories/repos/base.py:153-158` | base and join filters make a condition list exactly when one of them is empty |
| `SqlBatch.AddBatch` | `app/core/repositories/repos/base.py:282-302` | ceil(n / size) statements of at most MAX_ARGS parameters, each inserting its chunk exactly when fields that share a generated name are equal; the three failing inputs |
| `SqlBatch.InsertInChunks` | `app/core/repositories/repos/base.py:290-301` | statement `k` covers exactly chunk `k` |
| `SqlBatch.InsertChunk` | `app/core/repositories/repos/base.py:291-300` | one pass of the loop covers its chunk |
| `SqlBatch.MakeStatement` | `app/core/repositories/repos/base.py:291-294` | placeholders are column and row index, and executing the statement inserts the rows exactly when fields that share a name are equal |
| `SqlBatch.CollectValues` | `app/core/repositories/repos/base.py:293` | the dictionary binds every field when fields that share a name are equal |
| `SqlBatch.ChunksConcatenate` | `app/core/repositories/repos/base.py:290-301` | the chunks together are the input |
| `SqlBatch.NamesDistinctIff` | `app/core/repositories/repos/base.py:292-293` | generated names are distinct exactly when no column is another one followed by a number small enough |
| `SqlBatch.InsertsAgree` | `app/core/repositories/repos/base.py:292-293` | a statement that inserts its rows has equal fields behind equal names |
| `SqlBatch.ElevenRowsClash` | `app/core/repositories/repos/base.py:292-293` | columns `a` and `a1` and eleven rows: `a10` is bound once, so different fields are not both inserted |
| `SqlBatch.NoTrailingDigitIsEnough` | `app/core/repositories/repos/base.py:292-293` | columns without a trailing digit never clash |
| `SocketManager.SocketConnectionManager.Connect` | `app/core/clients/ws/manager.py:51-58` | accepts a connecting socket and holds it |
| `SocketManager.SocketConnectionManager.Disconnect` | `app/core/clients/ws/manager.py:97-110` | lets go of a socket and closes it if it is open; the registry stays sound, and consistent exactly when the socket is not mapped |
| `SocketManager.SocketConnectionManager.IsExistsDeviceWs` | `app/core/clients/ws/manager.py:71-86` | in any registry, rejects with 1008 exactly when the user's registered socket is held and open |
| `SocketManager.SocketConnectionManager.ConnectUser` | `app/core/clients/ws/manager.py:36-49` | in any registry, when a connect succeeds and the whole new registry; it stays consistent except exactly when a mapped socket is connected again and rejected, and sound except exactly when another user's entry names the address of the new socket |
| `SocketManager.SocketConnectionManager.DisconnectUser` | `app/core/clients/ws/manager.py:172-185` | the user's entry, the socket's mapping and the lock go; a consistent registry stays so, a sound one unless another user's entry names the address |
| `SocketManager.SocketConnectionManager.GetSocketForSession` | `app/core/clients/ws/manager.py:91-95` | the held socket of the user's entry, or none; in a sound registry it is the user's own, in a consistent one every entry has one |
| `SocketManager.SocketConnectionManager.CleanupConnections` | `app/core/clients/ws/manager.py:155-170` | in any registry exactly the connected sockets stay held and keep their mappings, none of them is closed; a user keeps the entry and the lock exactly when no swept socket was mapped to him; a sound or consistent registry stays so |
| `SocketManager.SocketConnectionManager.SweepOne` | `app/core/clients/ws/manager.py:160-170` | one dead key leaves the maps with its user's entry and lock, and is closed with 1000 if it is still connecting |
| `SocketManager.SweptIsConsistent` | `app/core/clients/ws/manager.py:155-170` | sweeping any set of sockets keeps the registry consistent |
| `SocketManager.SweptIsSound` | `app/core/clients/ws/manager.py:155-170` | and sound, even when several swept sockets belong to one user |
| `SocketManager.DroppedIsConsistentIff` | `app/core/clients/ws/manager.py:97-107` | a dropped socket leaves a consistent registry consistent exactly when it is not mapped |
| `SocketManager.DroppedIsSound` | `app/core/clients/ws/manager.py:97-107` | and a sound one sound in any case |
| `SocketManager.RegisteredIsSoundIff` | `app/core/clients/ws/manager.py:44-47` | registering a socket leaves a sound registry sound exactly when no other user's entry names its address |
| `SocketManager.ForgottenIsSoundIff` | `app/core/clients/ws/manager.py:181-184` | so does forgetting a user and a socket |
| `SocketManager.LiveEntryLostIff` | `app/core/clients/ws/manager.py:160-170` | a user whose registered socket survives a sweep loses his entry exactly when another mapped socket of his is swept |
| `SocketManager.SweepForgetsLiveSocket` | `app/core/clients/ws/manager.py:161-169` | sweeping an older dead socket removes the entry of the user's newer live one |
| `SocketManager.ConnectTwice` | `app/core/clients/ws/manager.py:71-86` | a registered socket that connects again is closed and dropped but stays the user's entry, which then names nothing |
| `SocketManager.AddressReused` | `app/core/clients/ws/manager.py:91-95` | after that a socket of another user at the same address is handed out for the first user |
| `ConnectRace.ConnectAlone` | `app/core/clients/ws/manager.py:36-49` | the manager's connect, run alone in any registry, does to the user's part of it what the race model says |
| `ConnectRace.FirstServedIsRegistered` | `app/core/clients/ws/manager.py:36-86` | of calls one after another the first is registered and all others are closed with 1008 |
| `ConnectRace.StepKeepsInv` | `app/core/clients/ws/manager.py:41-49` | under the lock every interleaved step keeps the registry equal to the calls served so far one after another |
| `ConnectRace.ReachableInv` | `app/core/clients/ws/manager.py:36-86` | the same over every schedule |
| `ConnectRace.ExactlyOneConnects` | `app/core/clients/ws/manager.py:36-86` | when all calls have returned exactly one got True and is registered, and every other socket was closed with 1008 |
| `ConnectRace.OccupiedRejectsAll` | `app/core/clients/ws/manager.py:71-86` | an open registered socket turns every call away with 1008 |
| `ConnectRace.SomebodyCanMove` | `app/core/clients/ws/manager.py:41-49` | until all calls have returned some call can move |
| `ConnectRace.RunsAreShort` | `app/core/clients/ws/manager.py:41-49` | every schedule ends: three steps a call |
| `EngineFailover.SQLAlchemyAsyncDbBaseClient.RefreshReadWriteConsistency` | `app/core/clients/db/base.py:123-143` | the two lists, the lives and the engines to check after any answers; nothing changes without replicas |
| `EngineFailover.SQLAlchemyAsyncDbBaseClient.ChooseEngine` | `app/core/clients/db/base.py:105-111` | any live replica may come for a reading session if there is one, otherwise any live engine of the read-write list, and an error exactly when there is none |
| `EngineFailover.SQLAlchemyAsyncDbBaseClient.ChooseAfterRefresh` | `app/core/clients/db/base.py:101-143` | right after a refresh the lists partition all engines, writes go to one that answered master, reads to a replica that answered if there is one, and errors come exactly when nobody answered so |
| `EngineFailover.ThosePartition` | `app/core/clients/db/base.py:133-142` | every engine is in exactly one of the two lists |
| `EngineFailover.AliveAreThoseWhoAnswered` | `app/core/clients/db/base.py:101-103` | a failed engine is listed but never offered |
| `EngineFailover.PoolsAsAnswered` | `app/core/clients/db/base.py:101-143` | the live read list is the answering replicas, the live read-write list the answering masters |
| `EngineFailover.SQLAlchemyAsyncDbBaseClient.CheckDeadConnection` | `app/core/clients/db/base.py:73-76` | one engine that answers again is live and no longer to be checked |
| `EngineFailover.SQLAlchemyAsyncDbBaseClient.CheckDeadConnections` | `app/core/clients/db/base.py:70-78` | a pass revives one engine at most, since the removal from the iterated set makes the loop raise, and changes nothing otherwise |
| `EngineFailover.RevivedEngineIsWritable` | `app/core/clients/db/base.py:139-140` | after a revival the write pool is the answering masters and the revived engine, be it a replica |

## Left out

- `UserRepo.add_batch`: inherited, so it writes no outbox rows; histories hold single adds only.
- `UserRepo.update` and `remove` with other filters than the id, `get`, `count`, `exists`: plain statements around the modelled WHERE text.
- `collect_order_string`, `collect_join_string`: concatenation of checked names; would add easy members only.
- The branch on a parameter name that is already collected (`app/core/repositories/repos/base.py:353-354`): it assigns the same name again, so it does nothing.
- Events that consumers see before their transaction commits, and interleaving inside `set_feed_cache`: feed steps are atomic.
- `PostServices.PostService.CreatePost`: does not insert the fan-out rows, which `OutboxTasks.OutboxService.CreatePost` does on the same transaction.
- `FeedQuery.QueryAnswersFeed`, `FeedQuery.FeedIsNewestOfFriends`, `FeedQuery.NewestOrdered` and `FeedQuery.RemovalShows`: for posts of different instants only, which makes the answer unique, as the cache model needs; `FeedQuery.AnswerIsNewestOfFriends` is the statement without that condition.
- `OutboxTasks.OutboxService.ProcessingEventsTask`: one worker; the sleep after an empty round has no effect, and others change posts and rows between transactions only.  A broker call that fails after the message was taken is a crash of `OutboxWorkers`.
- `KafkaConsumer.BaseKafkaConsumer.Run`: one partition, no rebalancing, and the end of the log ends the run.
- Ordering across several outbox workers: SKIP LOCKED lets a younger row overtake, so convergence is claimed exactly when each user's last rows agree.
- Losslessness of concurrent first messages of a dialog: false, see `DialogRaces.AllListedIffOneMiss` for exactly when.
- `add_message_to_conversation`, `check_message_data`: one command pair and one comparison.
- `ActiveWebSocket` (sender queue, timeouts), `cleanup_connections` retries and delays: timing only; stopping a held socket has no effect on the registry.
- Sweeps and disconnects during a connect: they delete the lock object, so `ConnectRace` has connects only; one live socket per user is not claimed for runs with sweeps.
- `asyncio` cancellation inside a transaction: `except Exception` does not see it.
- Engine choice inside the unit of work, session makers, the pause between passes of `check_dead_connection_task`; a pass whose engines all stay dead is followed by another one, a pass that revives an engine by none, because its loop raises.
- Routers, middleware, settings, JWT and password checks, the HTTP chat client: plumbing.
