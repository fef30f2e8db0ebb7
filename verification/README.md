# PulsePoll verification

A Dafny model of the live-polling backend PulsePoll and proofs about it: the vote protocol over
MongoDB and Redis, the WebSocket hubs and their registry, the life of polls, the results
arithmetic, the bounded rate limiter, and the viewer's page as the consumer of all of them.

`dafny verify dfyconfig.toml` checks the whole project.

## What is modelled

Where the program updates objects in place, the model is a class whose methods are proved equal to
a specification function; where it runs concurrently, the model is a state machine whose steps are
the individual store or channel operations, interleaved arbitrarily and in unbounded number.

| area | files |
|---|---|
| durable votes, counter hash, frames as values | `VoteLog.dfy` |
| the concurrent vote protocol and its environment | `VoteProtocol.dfy` |
| one vote per voter, frozen tallies | `SingleVote.dfy` |
| the conservation law between Redis and MongoDB | `Conservation.dfy`, `Necessity.dfy` |
| when counters, events and snapshots stay within the stored votes | `Bounds.dfy` |
| published events, the page that folds them | `Events.dfy`, `Viewer.dfy`, `Schedules.dfy` |
| the stores and the vote service as objects, and how they refine the protocol | `VoteStore.dfy`, `VoteService.dfy`, `ServiceRefinement.dfy` |
| percentages and totals | `Results.dfy` |
| the creator's operations and the vote protocol interleaved | `PollSystem.dfy` |
| hubs: state machine, registry, objects | `Hub.dfy`, `Registry.dfy`, `PollHub.dfy` |
| from the log to the screen | `EndToEnd.dfy` |
| polls: text, validation, life cycle, objects | `Text.dfy`, `PollValidation.dfy`, `PollLifecycle.dfy`, `PollService.dfy` |
| the creator's operations when they overlap | `PollRaces.dfy` |
| token buckets, the capped map, the limiter as an object | `TokenBucket.dfy`, `LimiterMap.dfy`, `RateLimiter.dfy` |

### The conservation law and its assumptions

A counter plus the votes stored but not yet counted plus the increments given up equals the stored
votes. The law has an unconditional part, `Conservation.DriftIsInherited`: in every run without
loss of the counters, a counter keeps the deviation it was created with, under every
interleaving, failure and rejection. And it has an exact condition,
`Conservation.CreatedCounterConservesIff`: a counter that an initialiser creates, in the pipeline or
at once and whatever happens between its reading of the durable counts and its write, losses of the
counters included, obeys the law until the next loss if and only if what was owed for its option at
the reading is what was settled since, that is counted by increments or forgotten by losses. Without
a loss in between nothing is settled, and the condition is that nothing was owed
(`Conservation.LossFreeCreationConservesIff`). Four assumptions, which `Conservation.Assumed` names
step by step, see to that; each has a counterpart that shows what happens without it.

| assumption | without it |
|---|---|
| the HSETNX pipeline acts as one operation | `Necessity.InterleavedPipelineDoubleCounts`, derived from the condition |
| the initialising write succeeds | `Necessity.IgnoredInitFailureDoubleCounts`, derived from the condition |
| the MongoDB read before it succeeds (otherwise zeros are written) | `Conservation.LossFreeCreationConservesIff`: the law then holds if and only if every stored vote was owed |
| counters are lost only when nobody is between reading them and incrementing | `Necessity.LossConservesIffNothingPending`, `Necessity.StaleWriteConservesIff` and `Necessity.StaleCountsUndercount`, `Necessity.IncrementOfMissingFieldConservesIff` |

That no counter exceeds the stored votes needs less: `Bounds.CarefulRun` asks only that durable
counts are read while no vote is on its way to a missing counter, and that counters are not lost while
somebody holds counts; pipelines may be interrupted and writes and reads may fail.

Two further ones are built into the protocol model: a single store command that fails has no effect,
and all callers spell the poll ID canonically. The second is exact:
`VoteService.CountedKeyIsInitialisedKeyIff` and `VoteService.SecondVoteIsRefusedIff`.

### Where the code does less than its text says

- The comments on the counter initialisation say that HSETNX avoids race-condition overwrites. It
  never overwrites, but the pipeline is not atomic: see `Necessity.InterleavedPipelineDoubleCounts`.
- A page can show more votes than are stored, even if no counter is ever lost: a reading of the
  durable counts while a vote is on its way to a missing counter counts that vote twice.
  `Bounds.ReadIsHarmlessIff` says that exactly such readings can, `Bounds.PendingReadIsShown` takes
  any of them to a snapshot, and `Necessity.InterleavedPipelineDoubleCounts` and
  `Necessity.IgnoredInitFailureDoubleCounts` are such runs from the start. In loss-free runs without
  such readings no page does (`Bounds.NoOverReporting`).
- The comment on `UpdatePoll` says that stable option IDs are preserved. A request that repeats an
  ID is accepted and loses an option: `PollValidation.UpdateByIdKeepsIdsIffDistinct` gives the exact
  condition and `PollLifecycle.RepeatedIdLosesAnOption` such a request for every poll.
- A status change reads the document back after writing it. When that read fails, the caller gets
  an error and no `poll_closed` is sent although the poll is closed:
  `PollLifecycle.FailureChangesNothingIff`, `PollLifecycle.EachClosingIsAnnouncedOnce`, and for an
  input `PollLifecycle.LostReplyExample`.
- The unique index is said to guarantee one vote per participant and poll. It does per spelling of
  the poll ID: `VoteService.SecondVoteIsRefusedIff`, and for an input `VoteService.UpperCaseVotesAgain`.
- `maxLimiterEntries` is called a strict upper bound. `LimiterMap.CapHoldsIff` says exactly when it
  is kept, `LimiterMap.EvictedIsOldestIff` exactly when the evicted entry is an oldest one, and
  `LimiterMap.EmptyKeyDefeatsTheCap` is a run that passes the bound.
- Updates are said to be rejected if the poll is closed. One that loaded the poll before is not, and
  writes after the close: `PollRaces.ClosedContentIsOfEarlierLoads`, `PollRaces.UpdateLandsAfterClose`.
  Two closes that overlap announce one closing twice: `PollRaces.AnnouncementsUnderOverlap`,
  `PollRaces.OverlappingClosesRepeat`.
- During `Shutdown` a poll can have two live hubs: `Registry.OneLiveHubPerPoll` says exactly when a
  live hub is not the mapped one, and `Registry.ShutdownAllowsTwoLiveHubs` is such a run.

## Model

| member | source | states |
|---|---|---|
| `SingleVote.OneVotePerVoter` | backend/internal/votes/service.go:103-130 | in every run, with any failures and losses, stored voters are distinct, a voter has at most one successful request, that request is the one that stored the vote, and successes and stored votes are equally many |
| `SingleVote.RejectedCallsAreInvisible` | backend/internal/votes/service.go:68-130 | in every run a request that answered an error left no vote, no increment and no event |
| `SingleVote.LateVotesWereAdmitted` | backend/internal/votes/service.go:73-84 | every vote stored while a poll is closed or deleted belongs to a request that had loaded it before |
| `SingleVote.DrainedTallyIsFrozen` | backend/internal/votes/service.go:125-134 | once those requests have drained, no vote is stored and no counter incremented until the poll is re-opened; counters keep their values unless they are lost |
| `Conservation.DriftIsInherited` | backend/internal/votes/service.go:125-134 | in every loss-free run, under any interleaving and any failures, a counter's deviation from the stored votes never changes |
| `Conservation.DriftOnCreation` | backend/internal/votes/redis_repository.go:88-97 | what a step that creates a counter does to the law: the deviation is the value written plus the work outstanding less the stored votes |
| `Conservation.DriftIsOwedLessSettled` | backend/internal/votes/service.go:256-275 | whatever happens between the reading of the durable counts and the write that creates a counter, losses included: the counter deviates, until the next loss, by exactly what was owed at the reading, less what increments counted and losses forgot since, less the stored votes if the reading failed |
| `Conservation.CreatedCounterConservesIff` | backend/internal/votes/service.go:256-275 | whatever happens in between, losses included: a created counter obeys the conservation law until the next loss if and only if what was owed for its option at the reading equals what was settled by the time of the write (plus, had the reading failed, the votes then stored) |
| `Conservation.LossFreeCreationConservesIff` | backend/internal/votes/service.go:256-275 | when the counters are not lost between reading and write, the law holds of the created counter until the next loss if and only if nothing was owed at the reading (had it failed: if and only if every stored vote was) |
| `Conservation.RebuildIsExact` | backend/internal/votes/service.go:256-275 | an initialiser that finds the hash absent writes exactly the current number of stored votes for every option, whenever it read them; one that finds it present changes nothing |
| `Conservation.AbsentHashBlocksVotes` | backend/internal/votes/service.go:113-125 | from a loss of the counters until an initialiser writes them, no run under the assumptions stores a vote or increments a counter, whatever was in flight |
| `Conservation.ConsistentStep` | backend/internal/votes/service.go:63-187 | the inductive invariant behind the law is kept by every step of every request and of the environment |
| `Conservation.CountersConserveVotes` | backend/internal/votes/service.go:112-134 | in every run under the stated assumptions, whenever counters exist, counter + uncounted + given up == stored votes, for every option |
| `Conservation.QuiescentRedisEqualsMongo` | backend/internal/votes/service.go:191-251 | with nothing in flight and nothing given up, each Redis counter is the stored tally and their sum is the number of stored votes |
| `Necessity.BallotsConserve` | backend/internal/votes/service.go:63-187 | the assumptions can be met: from a new poll on, after any sequence of votes run one after the other, the Redis counter of every option is its number of stored votes |
| `Necessity.LossConservesIffNothingPending` | backend/internal/votes/service.go:112-134 | a loss followed by an undisturbed rebuild, which reads after the loss, keeps the law if and only if no stored vote was waiting to be counted at the loss |
| `Necessity.StaleWriteConservesIff` | backend/internal/votes/service.go:263-274 | a loss followed by the write of counts read before it keeps the law of an option if and only if these counts and the votes waiting to be counted are the stored votes |
| `Necessity.StaleCountsUndercount` | backend/internal/votes/service.go:263-274 | a concrete run in which nothing was owed at the reading and nobody waited at the loss, and the counter ends one short of the stored vote |
| `Necessity.IncrementOfMissingFieldConservesIff` | backend/internal/votes/redis_repository.go:44-51 | an increment of a missing field keeps the law if and only if every stored vote of that option is still outstanding |
| `Necessity.PipelineRefinesAtomicInit` | backend/internal/votes/redis_repository.go:85-107 | the HSETNX commands run one by one without interruption have the effect of the one-step initialisation |
| `Necessity.InterleavedPipelineDoubleCounts` | backend/internal/votes/redis_repository.go:88-101 | a concrete run in which an interrupted pipeline makes one stored vote count twice, because one vote was owed when the counts were read |
| `Necessity.IgnoredInitFailureDoubleCounts` | backend/internal/votes/service.go:113 | a concrete run in which an ignored initialisation failure makes one stored vote count twice, for the same reason |
| `Events.PublishedEventsAreFaithful` | backend/internal/votes/service.go:141-163 | under the assumptions of the conservation law, and with losses only while nobody is between an increment and its total: no two published events carry the same option and count, and in each 1 <= count <= total <= votes stored |
| `Events.LossFreeEventsAreFaithful` | backend/internal/votes/service.go:141-163 | in every run without loss, whatever pipelines, writes and reads do: no two published events carry the same option and count, and in each 1 <= count <= total; if the durable counts are read with no vote on its way to a missing counter, also count <= votes of the option and total <= votes stored |
| `Bounds.NoOverReporting` | frontend/src/pages/PublicPollPage.jsx:65-135 | in every run in which durable counts are read with no vote on its way to a missing counter and counters are not lost while somebody holds counts, pipelines, writes and reads failing freely: whatever subset, order and repetition of the frames sent reaches a page, no displayed count exceeds the votes stored for its option, nor the total all votes, if the view it started from did not |
| `Bounds.ReadIsHarmlessIff` | backend/internal/votes/service.go:263-274 | while the counter and any counts in hand are within the stored votes and the counter is missing: a reading of the durable counts can be continued, with no further careless reading or loss, to a counter above the stored votes if and only if a vote is on its way to it at the reading |
| `Bounds.PendingReadIsShown` | backend/internal/votes/service.go:191-251 | from any state in which a vote is on its way to a missing counter: a reading, its write, and the vote's increment, and the next results answer lists one vote more than is stored |
| `Bounds.FitsStep` | backend/internal/votes/service.go:112-134 | every step but a careless reading or loss keeps the counter, with the votes on their way to it, within the stored votes, and so any counts in hand |
| `Bounds.AssumedIsCareful` | backend/internal/votes/service.go:112-134 | the assumptions of the conservation law imply that all readings and losses are careful |
| `Viewer.FoldConcat` | frontend/src/pages/PublicPollPage.jsx:94-135 | receiving two batches of frames one after the other is receiving them as one |
| `Viewer.FoldBounded` | frontend/src/pages/PublicPollPage.jsx:108-135 | the reducer keeps a view within the stored votes when every frame is within them, in any order; what each frame does to the view is in the next rows |
| `Viewer.FramesOfThePoll` | frontend/src/pages/PublicPollPage.jsx:94-135 | a snapshot replaces rows and total; an update sets the count of its own option and leaves every other row, and sets the total, or adds one where it brings none |
| `Viewer.OnlyRelevantFramesShow` | frontend/src/pages/PublicPollPage.jsx:94-142 | folding any frames, in any order, is folding them without the closings of the poll and without the frames of other polls |
| `Viewer.FirstViewsAreBounded` | frontend/src/pages/PublicPollPage.jsx:65-75 | the views a page can start from, empty or all options at zero, exceed no stored votes |
| `Schedules.AcceptedRun` | backend/internal/votes/service.go:63-187 | an accepted vote run alone is a run of the protocol with the combined effect: one vote, one increment on the rebuilt counters, one event |
| `Schedules.BallotsRun` | backend/internal/votes/service.go:63-187 | any sequence of votes run one after the other, accepted or refused, is a run of the protocol, without interrupted pipelines, failed readings or losses |
| `Schedules.IncrementalViewEqualsRecompute` | frontend/src/pages/PublicPollPage.jsx:94-142 | receiving an earlier answer and folding the events of any sequence of completed votes, with any closings of the poll and any frames of other polls in between, shows exactly what receiving a fresh results answer shows |
| `VoteLog.CountsAreTallies` | backend/internal/votes/repository.go:115-149 | the aggregation, with absent options read as zero, is the tally of every option |
| `VoteLog.TalliesCountVotes` | backend/internal/votes/repository.go:115-149 | the tally of an option is the number of places in the log that hold a vote of that poll for it, and the total of a poll that of its votes |
| `VoteLog.TalliesSumToVotes` | backend/internal/votes/redis_repository.go:62-79 | tallies over distinct options that cover all votes add up to the number of votes |
| `VoteLog.InitHashEffect` | backend/internal/votes/redis_repository.go:89-97 | initialisation never overwrites a field, adds exactly the missing listed ones, each with its initial count |
| `VoteStore.VoteRepository.Create` | backend/internal/votes/repository.go:79-96 | appends the vote unless the voter has one in the poll, and keeps the unique index |
| `VoteStore.VoteRepository.HasVotedBefore` | backend/internal/votes/repository.go:99-111 | answers exactly whether a vote of the voter in the poll is stored |
| `VoteStore.VoteRepository.GetVoteCountsByPoll` | backend/internal/votes/repository.go:115-149 | groups the log: an option has an entry exactly when it has votes, and the entry is its tally |
| `VoteStore.CounterStore.IncrementVote` | backend/internal/votes/redis_repository.go:44-51 | returns and stores the old counter plus one, a missing field counting as zero, and touches no other key |
| `VoteStore.CounterStore.GetOptionCounts` | backend/internal/votes/redis_repository.go:55-80 | exactly the listed options, absent ones as zero, with the sum over the list |
| `VoteStore.CounterStore.InitializeCounters` | backend/internal/votes/redis_repository.go:85-107 | the loop of HSETNX commands is the initialisation function of the commands carried out: all of them, or when the pipeline fails any number of the first; other keys are untouched |
| `VoteStore.CounterStore.HasCounters` | backend/internal/votes/redis_repository.go:110-117 | a key exists exactly when its hash has a field |
| `VoteStore.CounterStore.ResetCounters` | backend/internal/votes/redis_repository.go:120-123 | removes the key and nothing else, or fails and changes nothing |
| `VoteService.VoteService.EnsureRedisInitialized` | backend/internal/votes/service.go:256-275 | the counters afterwards under every combination of failing check, read and write, the write failing after any number of its commands; only the canonical key changes |
| `VoteService.EnsuredMeans` | backend/internal/votes/service.go:256-275 | counters that are there and can be checked stay; otherwise exactly the options the pipeline reached have a counter beside those there, each missing one at its stored votes, or at zero when these could not be read |
| `VoteService.VoteService.IncrementRedisWithRetry` | backend/internal/votes/service.go:279-299 | counts the vote exactly once or not at all, and once exactly when one of three attempts succeeds before the context ends |
| `VoteService.VoteService.CheckVote` | backend/internal/votes/service.go:64-110 | the first of the checks that fails decides the error, in the order of the source; the next eight rows say what decides each error |
| `VoteService.BadInputIff` | backend/internal/votes/service.go:68-70 | a vote is refused as invalid input if and only if the poll ID, the option or the voter is blank |
| `VoteService.PollMissingIff` | backend/internal/votes/service.go:73-79 | it meets no poll if and only if the ID is malformed, or the lookup finds no document or a deleted one |
| `VoteService.PollIsClosedIff` | backend/internal/votes/service.go:81-84 | it is refused as closed if and only if the document found is undeleted and closed |
| `VoteService.PollExpiredIff` | backend/internal/votes/service.go:86-89 | it is refused as expired if and only if the document found is open and has a deadline before now |
| `VoteService.InvalidOptionIff` | backend/internal/votes/service.go:91-101 | it is refused for its option if and only if the poll is open and in time and no option has that ID |
| `VoteService.AlreadyVotedIff` | backend/internal/votes/service.go:103-110 | it is refused as a duplicate if and only if the poll would take it and the log has a vote of that voter under that spelling of the ID |
| `VoteService.StoreDownIff` | backend/internal/votes/service.go:73-107 | it meets a failing store if and only if the lookup of the poll fails, or that of the voter after every earlier check passed |
| `VoteService.PassesIff` | backend/internal/votes/service.go:63-110 | it passes if and only if no input is blank, the poll is found undeleted, open and in time, the option is listed, and the voter has no vote; each condition in terms of the stores |
| `VoteService.NewPollTakesVotes` | backend/internal/votes/service.go:63-110 | a poll just created takes the first vote of anybody for any of its options until its deadline, and refuses a second vote and a late one as such |
| `VoteService.NoVotesAfterTheEnd` | backend/internal/votes/service.go:73-84 | after a successful close or deletion every vote is refused, as closed or as missing, however the ID is spelled |
| `VoteService.VoteService.CountAndPublish` | backend/internal/votes/service.go:134-179 | the counter and the event after a stored vote, under every failure of increment, total and publication |
| `VoteService.VoteService.RecordVote` | backend/internal/votes/service.go:112-187 | after the checks: the ensured counters, the stored vote, its single increment under its own key and its event, under every combination of failures and with a duplicate that only the unique index catches; every other key untouched |
| `VoteService.VoteService.CastVote` | backend/internal/votes/service.go:63-187 | accepts a vote if and only if the inputs are not blank, the poll is found undeleted, open and in time, the option is listed, the voter has no vote, and neither lookup nor the insert fails; then appends exactly that vote and returns its receipt, and otherwise leaves the log alone; the whole new state of both stores under every combination of failures, a refused vote changing none of it |
| `VoteService.RecordedMeans` | backend/internal/votes/service.go:112-187 | past the checks, under every combination of failures: the vote is appended unless the insert fails or the voter has one, its counter grows by one exactly if it was stored and one of three attempts got through, and one event carries that counter and the total |
| `VoteService.UndisturbedVoteIsCounted` | backend/internal/votes/service.go:112-187 | when nothing fails, a vote leaves counters that equal the stored votes of every option if they were missing, and otherwise one more for its own option and the same for the others |
| `VoteService.VoteService.GetResults` | backend/internal/votes/service.go:191-251 | for the poll asked for, answers one row per option in order, with its text, its Redis counter (its stored votes when Redis cannot be read) and its share, and the total, or a storage error when neither can be read; a missing poll is an error of its own and touches nothing |
| `VoteService.VoteService.SumCounts` | backend/internal/votes/service.go:224-227 | summing the groups of the aggregation in any order gives the number of votes of the poll |
| `VoteService.ResponsePercentages` | backend/internal/votes/service.go:230-250 | in a response with votes, from Redis or from MongoDB, each share is within 0..10000 hundredths, the shares add up to that of the listed counts within n/2, and to 10000 within n/2 when the total is their sum |
| `VoteService.FallbackTotalCovers` | backend/internal/votes/service.go:220-227 | the total of the MongoDB fallback covers the listed tallies, and is their sum if and only if every stored vote names a listed option |
| `VoteService.CountedKeyIsInitialisedKeyIff` | backend/internal/votes/service.go:134-257 | votes are counted under the key that was initialised if and only if the caller spelled the poll ID in lower case |
| `VoteService.EarlierVoteIsFoundIff` | backend/internal/votes/service.go:104-110 | the duplicate check finds a vote stored under the canonical ID if and only if the caller spells the ID in lower case |
| `VoteService.SecondVoteIsRefusedIff` | backend/internal/votes/service.go:64-110 | a second vote of a voter in an open poll is refused as a duplicate if and only if the call spells the poll ID in lower case, and otherwise passes every check |
| `VoteService.UpperCaseVotesAgain` | backend/internal/votes/service.go:104-110 | an input: a poll ID with one upper-case letter under which the voter of the poll's one vote passes again |
| `ServiceRefinement.CastVoteIsABallot` | backend/internal/votes/service.go:63-187 | the protocol's undisturbed ballot leaves log, counters and events as CastVote's own postcondition says, with the same verdict |
| `ServiceRefinement.EveryCastVoteIsARun` | backend/internal/votes/service.go:63-187 | whatever fails during a call under the canonical ID, what CastVote's postcondition says it answers and leaves behind is the end of a run of the protocol |
| `ServiceRefinement.EveryGetResultsIsARun` | backend/internal/votes/service.go:191-251 | whatever fails during a results query, the counters it ensures and the answer it gives are the end of a run of the protocol |
| `ServiceRefinement.AnswerIsSnapshot` | backend/internal/websocket/handler.go:147-163 | the snapshot the WebSocket handler builds from a results response is the frame the protocol sends, from either source of counts |
| `PollSystem.SharesAreARun` | backend/internal/polls/service.go:144-253 | however the creator's operations and the vote requests interleave, with requests deciding by the document as it then is, the requests' share is a run of the protocol, so its theorems hold of the poll as a whole |
| `PollSystem.CoupledStep` | backend/internal/polls/repository.go:157-242 | every operation and every request step keeps the protocol's view of the poll in agreement with the stored document |
| `PollSystem.TotalsAgreeThroughout` | backend/internal/votes/service.go:205-228 | in every state of every interleaving of updates with distinct request IDs and votes, every stored vote names an option the document then has, and when the tallies agree the Redis total is the MongoDB total |
| `PollSystem.QuiescentTotalsAgree` | backend/internal/votes/service.go:205-228 | under the assumptions of the conservation law, with nothing in flight or given up, the tallies do agree, and the Redis total over the document's present options is the number of stored votes |
| `PollSystem.LateVotesHadLoadedTheOpenPoll` | backend/internal/votes/service.go:73-84 | once the stored document is closed or deleted and until its creator asks to re-open it, every vote still stored belongs to a request that had loaded the poll before |
| `Results.HundredthsAreNearest` | backend/internal/votes/service.go:235-237 | the rounded share differs from the exact one by at most half a hundredth of a percent, the middle is rounded up, and without votes it is zero |
| `Results.HundredthsInRange` | backend/internal/votes/service.go:235-237 | shares of at most the total lie within 0..10000 |
| `Results.HundredthsMonotone` | backend/internal/votes/service.go:235-237 | a larger count never gets a smaller share |
| `Results.SharesAddUpToTheWhole` | backend/internal/votes/service.go:231-244 | the shares of n counts with a positive sum add up to 10000 within n/2 |
| `Results.TotalsAgreeIff` | backend/internal/votes/service.go:214-227 | with equal tallies the Redis total equals the MongoDB total if and only if every stored vote names a listed option |
| `Hub.HubInvStep` | backend/internal/websocket/hub.go:147-204 | the invariant of channels, streams and shutdown is kept by every arm of the loop and every other goroutine's step |
| `Hub.DeliveryIsGapFree` | backend/internal/websocket/hub.go:165-201 | in every run, what the hub put into a client's channel is a contiguous block of the broadcasts from its registration on, and complete while the client is held |
| `Hub.BroadcastIsPerClient` | backend/internal/websocket/hub.go:189-201 | a broadcast cuts off exactly the held clients whose buffer is full; every other held client gets the frame, and outsiders are untouched |
| `Hub.ChannelDiscipline` | backend/internal/websocket/hub.go:151-203 | in every run held clients have open queues of at most 256, the hub never sends on or closes a closed channel, and after Run returns every registered client was closed exactly once |
| `Hub.BroadcastsAreInOrder` | backend/internal/websocket/hub.go:101-107 | in every run the frames broadcast so far and those waiting are exactly the frames enqueued, in order |
| `Hub.ChannelsAreInOrder` | backend/internal/websocket/client.go:74-93 | in every run what was put into a channel stays there in its place, and what the client's pump has taken is a prefix of it |
| `Hub.HeldAfter` | backend/internal/websocket/hub.go:166-203 | exactly which clients the hub holds after any step |
| `Hub.LoopLeavesIff` | backend/internal/websocket/hub.go:162-190 | the loop is left if and only if `done` is closed, or an unregister arm leaves nobody |
| `Hub.ArmsAreReady` | backend/internal/websocket/hub.go:160-203 | in the loop each arm is ready exactly when its event waits, and a broadcast finds room below 256 frames |
| `Hub.PumpsAreReady` | backend/internal/websocket/hub.go:84-91 | registration at a stopped hub, the client's pump and the handler are ready exactly when the channels allow it |
| `Hub.LeavingReturns` | backend/internal/websocket/hub.go:151-158 | from any state in which the loop is left, the deferred function runs to its end and nobody is held |
| `Hub.HubNeverEndsUnderAViewer` | backend/internal/websocket/hub.go:110-187 | unless stopped from outside, `done` is closed only when no client is held |
| `Registry.RegInvStep` | backend/internal/websocket/manager.go:29-92 | the invariant of registry and hubs is kept by every step of the manager and of every hub |
| `Registry.OneLiveHubPerPoll` | backend/internal/websocket/manager.go:29-92 | in every run, with or without Shutdown: a live hub is mapped if and only if no Shutdown is about to stop it; a poll has a live hub beside the mapped one if and only if a live one of its own waits to be stopped; otherwise at most one live hub; none waits before a Shutdown |
| `Registry.LateRemovalKeepsNewerHub` | backend/internal/websocket/manager.go:57-68 | whatever other hubs do, also after a Shutdown, a live hub that none has taken stays the mapped one of its poll until its own Run stops it |
| `Registry.GetOrCreateGivesALiveHub` | backend/internal/websocket/manager.go:29-53 | afterwards the poll has a live mapped hub, the present one if that is live, and no other entry or hub changed |
| `Registry.HubLeavesRegistry` | backend/internal/websocket/hub.go:110-158 | whatever the registry holds, a hub whose loop is left runs to its end, holds nobody, and is out of the map |
| `Registry.ShutdownStopsEveryHub` | backend/internal/websocket/manager.go:78-92 | from any reachable registry an uninterrupted Shutdown ends with an empty map and `done` closed in every hub |
| `Registry.HubsEndEmptyAndUnmapped` | backend/internal/websocket/hub.go:151-187 | in every run a hub that is done before any Shutdown holds no client, and one whose Run returned holds none and is not mapped |
| `Registry.ShutdownAllowsTwoLiveHubs` | backend/internal/websocket/manager.go:78-92 | a concrete run in which Shutdown and a new viewer leave a poll with two live hubs |
| `PollHub.PollHub.OnRegister` | backend/internal/websocket/hub.go:165-170 | the register arm adds the client and keeps every held channel open |
| `PollHub.PollHub.OnUnregister` | backend/internal/websocket/hub.go:172-187 | the unregister arm closes a held client's channel once, ignores an unknown one, and reports whether the hub is empty |
| `PollHub.PollHub.OnBroadcast` | backend/internal/websocket/hub.go:189-201 | the broadcast loop, in any iteration order, gives the frame to every client with room and closes and drops the others |
| `PollHub.PollHub.Drain` | backend/internal/websocket/hub.go:154-157 | closes every remaining client's channel once and empties the hub |
| `PollHub.PollHub.TakeArm` | backend/internal/websocket/hub.go:161-202 | each arm of the select statement takes the objects from one state of the machine to the next |
| `PollHub.PollHub.Run` | backend/internal/websocket/hub.go:147-204 | every complete execution of the loop leaves every channel as the state machine does after the same steps, with `done` closed, no client held, and the hub out of the registry altogether |
| `PollHub.PollHub.Leave` | backend/internal/websocket/hub.go:151-158 | the deferred function ends the machine's run: `done` closed, every held client closed, the registry left unless an earlier Stop did |
| `PollHub.ExecutionIsRun` | backend/internal/websocket/hub.go:147-204 | a complete execution of the loop is a run of the state machine, so that machine's theorems hold of it |
| `PollHub.VisitExecutes` | backend/internal/websocket/hub.go:147-204 | the executions that `PollHub.PollHub.Run` takes exist: a viewer comes, gets a frame and leaves |
| `PollHub.ExecutionClosesOnce` | backend/internal/websocket/hub.go:151-203 | every execution of the loop closes each client that registered exactly once |
| `PollHub.PollHub.Stop` | backend/internal/websocket/hub.go:110-123 | the first call closes `done` and leaves the registry; later ones do nothing |
| `PollHub.HubManager.GetOrCreateHub` | backend/internal/websocket/manager.go:29-53 | returns the mapped hub while it is open, otherwise maps a new one; a failed subscription changes nothing |
| `PollHub.HubManager.RemoveHub` | backend/internal/websocket/manager.go:57-68 | removes the poll's entry only when it is this very hub |
| `PollHub.HubManager.Shutdown` | backend/internal/websocket/manager.go:78-92 | empties the registry and stops every hub that was in it |
| `EndToEnd.ViewersNeverSeeMoreThanWasStored` | backend/internal/websocket/client.go:74-93 | in every run as for `Bounds.NoOverReporting`, relayed by a hub in any order and number and taken from a client's channel, no page shows a count above the votes stored, if the view it started from did not |
| `PollValidation.ValidateCreatePoll` | backend/internal/polls/validation.go:22-57 | accepts exactly the requests with a question of 3 to 255 characters and 2 to 10 options of 1 to 150, once trimmed, that differ when lower-cased, and no deadline or a later one; returns them trimmed |
| `PollValidation.ReplaceOptions` | backend/internal/polls/validation.go:80-146 | accepts exactly the option lists with known IDs and acceptable texts; every option then has the trimmed text of its entry, and the entry's ID, or its own if the request names none |
| `PollValidation.ValidateAndUpdatePoll` | backend/internal/polls/validation.go:60-152 | accepts exactly the acceptable updates; the copy then holds the trimmed question, if one is given, and every option the trimmed text of its entry; after a failure it differs at most in the question, exactly when that was acceptable |
| `PollValidation.AcceptableUpdateIff` | backend/internal/polls/validation.go:60-152 | an update is acceptable if and only if it names something to change, its question has 3 to 255 characters, it has one entry per option with texts of 1 to 150 that differ when lower-cased, and every entry names a known ID if any names one |
| `PollValidation.UpdateMeans` | backend/internal/polls/validation.go:64-149 | what an acceptable update makes of the document, field by field: trimmed question and texts, IDs by entry or by position, nothing else |
| `PollValidation.TextsFollowIds` | backend/internal/polls/validation.go:99-123 | with distinct IDs in the request, the option with an entry's ID has that entry's text |
| `PollValidation.UpdateByIdKeepsIdsIffDistinct` | backend/internal/polls/validation.go:92-123 | an accepted update by ID permutes the option IDs if and only if the IDs in the request are distinct |
| `PollValidation.PositionalUpdateKeepsIds` | backend/internal/polls/validation.go:124-146 | an update without IDs keeps every ID in place |
| `PollValidation.OptionIdsSurviveUpdates` | backend/internal/polls/validation.go:75-149 | over any sequence of updates with distinct request IDs the option IDs stay a permutation of the originals |
| `PollLifecycle.PollsStayWellFormed` | backend/internal/polls/service.go:52-253 | in every run of create, update, status change and delete, every stored poll has a trimmed question of 3 to 255 characters and 2 to 10 options with trimmed texts of 1 to 150 that differ when lower-cased |
| `PollLifecycle.PollsKeepTheirCreator` | backend/internal/polls/repository.go:157-242 | in every run a poll keeps creator, age, expiry and number of options, and a deleted one never changes again |
| `PollLifecycle.ClosedContentIsConstant` | backend/internal/polls/service.go:163-165 | in every run of operations one after the other, until its creator re-opens it, a closed poll keeps question and options, whatever is attempted |
| `PollLifecycle.FailureChangesNothingIff` | backend/internal/polls/service.go:144-253 | a failed operation changes nothing if and only if it is not a status change whose read-back failed |
| `PollLifecycle.ForbiddenIff` | backend/internal/polls/service.go:144-243 | update, status change and deletion are forbidden if and only if the caller is nameless or did not create the poll that was found |
| `PollLifecycle.NotFoundIff` | backend/internal/polls/service.go:149-238 | they find no poll if and only if the ID is blank or malformed, or no undeleted document is stored under it |
| `PollLifecycle.IsClosedIff` | backend/internal/polls/service.go:163-165 | only an update by the creator of a closed poll is refused as closed |
| `PollLifecycle.InvalidInputIff` | backend/internal/polls/service.go:167-194 | an unknown status is refused before the poll is looked for, an unacceptable update after its creator and status have been checked, and nothing else as invalid |
| `PollLifecycle.StoreFailedIff` | backend/internal/polls/service.go:144-253 | a storage error is answered if and only if the operation gets to the call that fails: read, write, or read-back |
| `PollLifecycle.EachClosingIsAnnouncedOnce` | backend/internal/polls/service.go:205-217 | in every run of operations one after the other, the broadcast attempts for a poll are its active-to-closed transitions, less those whose read-back failed |
| `PollLifecycle.LostReplyClosesSilently` | backend/internal/polls/service.go:210-217 | for every open poll, a close whose read-back fails answers an error, closes the poll and announces nothing |
| `PollLifecycle.LostReplyExample` | backend/internal/polls/service.go:210-217 | a store and a close to which this happens |
| `PollRaces.OverlapsKeepThePoll` | backend/internal/polls/repository.go:157-242 | however operations overlap between load and write, a poll stays well formed and keeps creator, age, expiry and number of options, and a deleted one never changes again |
| `PollRaces.OverlapsKeepOptionIds` | backend/internal/polls/service.go:144-178 | however updates with distinct request IDs overlap, the option IDs stay a permutation of the originals |
| `PollRaces.ClosedContentIsOfEarlierLoads` | backend/internal/polls/service.go:154-173 | while a poll stays closed its content is what it was, or what an update wrote that had loaded the poll open before |
| `PollRaces.UpdateLandsAfterClose` | backend/internal/polls/service.go:154-173 | for every open poll, an update that loaded it before a close writes its content after it |
| `PollRaces.AnnouncementsUnderOverlap` | backend/internal/polls/service.go:196-217 | in every overlap the announcements are the active-to-closed transitions, and one more for every close that wrote to a closed poll, less those that could not read back and those still to end |
| `PollRaces.OverlappingClosesRepeat` | backend/internal/polls/service.go:196-217 | for every open poll, two closes that both load it open announce its one closing twice |
| `PollRaces.UndisturbedIsExec` | backend/internal/polls/service.go:144-253 | an operation that nothing overlaps does to the document, and announces, what the sequential one does |
| `PollLifecycle.OptionIdsAreStable` | backend/internal/polls/service.go:144-178 | in every run of operations with distinct request IDs a poll's option IDs stay a permutation of those it had |
| `PollLifecycle.RepeatedIdLosesAnOption` | backend/internal/polls/validation.go:99-123 | for every well-formed poll with distinct generated IDs, the request that repeats its first ID is accepted, and its second option is gone |
| `PollService.PollRepository.Create` | backend/internal/polls/repository.go:79-96 | stores the document under a new ID; a taken ID or a failing call changes nothing |
| `PollService.PollRepository.FindByID` | backend/internal/polls/repository.go:99-120 | finds exactly the documents with a well-formed ID that are not deleted |
| `PollService.PollRepository.Update` | backend/internal/polls/repository.go:157-179 | writes question, options and update time of a document that is not deleted, and no other field |
| `PollService.PollRepository.UpdateStatus` | backend/internal/polls/repository.go:182-210 | writes status and update time, keeps them written when the read-back fails, and answers not-found exactly for a malformed ID or, when the call does not fail, for no such undeleted document |
| `PollService.PollRepository.SoftDelete` | backend/internal/polls/repository.go:213-242 | marks a document deleted once, keeping its content |
| `PollService.PollService.CreatePoll` | backend/internal/polls/service.go:52-88 | accepts exactly the acceptable requests of a named caller whose insert succeeds; then one document is added, found under its new ID: open, undeleted, of this creator, with the requested deadline, both times now, the trimmed question, and the given IDs with the trimmed texts in order; as the life-cycle function has it |
| `PollService.PollService.UpdatePoll` | backend/internal/polls/service.go:144-178 | succeeds exactly for the creator of an open undeleted poll with an acceptable update and working store; the stored document then has the trimmed question, if one is given, the trimmed texts under the IDs of their entries or positions, the new update time and nothing else changed, and no other document changes; as the life-cycle function has it, so the theorems over runs hold of it |
| `PollService.PollService.UpdateStatus` | backend/internal/polls/service.go:182-220 | exactly when it succeeds, what is stored (also when the reply is lost), and that one closing is announced exactly for an open poll that is closed and read back while a broadcaster is installed; as the life-cycle function has it |
| `PollService.PollService.ClosePoll` | backend/internal/polls/service.go:223-225 | closing is the status change to closed |
| `PollService.PollService.DeletePoll` | backend/internal/polls/service.go:229-253 | succeeds exactly for the creator of an undeleted poll with a working store, marks it deleted at that time, after which it is not found, and changes nothing else; as the life-cycle function has it |
| `TokenBucket.IdleBucketIsFull` | backend/internal/middleware/ratelimit.go:65-72 | a bucket left alone for a time in which a whole burst refills is full |
| `TokenBucket.AnswerCosts` | backend/internal/middleware/ratelimit.go:129 | a request is granted exactly when a token is there; a grant costs one, a refusal none, and the bucket then refills at its rate up to the burst |
| `TokenBucket.ReplacementUnnoticedIffFull` | backend/internal/middleware/ratelimit.go:90-95 | replacing a bucket by a new one is unnoticed by every later sequence of requests if and only if it is full at that moment |
| `LimiterMap.ScanFindsOldestIff` | backend/internal/middleware/ratelimit.go:76-83 | in any iteration order the scan comes back with a least recently seen entry if and only if the empty key's is not strictly the oldest |
| `LimiterMap.ScanFindsNoneIff` | backend/internal/middleware/ratelimit.go:76-87 | the scan comes back with nobody if and only if the empty key is visited last and its entry is strictly older than all others |
| `LimiterMap.CapHoldsIff` | backend/internal/middleware/ratelimit.go:55-96 | from a map within the cap, in any iteration order, the cap is kept if and only if it is not this case: a new key, a full map of fresh entries, the empty key's strictly the oldest and visited last |
| `LimiterMap.EvictedIsOldestIff` | backend/internal/middleware/ratelimit.go:74-87 | an evicted entry that is not stale is a least recently seen one if and only if the empty key's is not strictly the oldest |
| `LimiterMap.CapAndEvictionOrder` | backend/internal/middleware/ratelimit.go:55-96 | for non-empty stored keys and any iteration order the cap holds, the requested key is present and just seen, kept entries are unchanged, and whoever was evicted was stale or, at most one, least recently seen |
| `LimiterMap.EvictsOnlyWhenFull` | backend/internal/middleware/ratelimit.go:55-96 | somebody goes only when a new key meets 10000 entries; then all entries idle for more than five minutes go, and another only if there are none; a known key keeps its bucket, a new one gets a full one |
| `LimiterMap.CleanupKeepsTheRecent` | backend/internal/middleware/ratelimit.go:98-113 | after a cleanup, at the end of any run, exactly the entries seen within the last 600 seconds are left, unchanged |
| `LimiterMap.EntriesAreRecent` | backend/internal/middleware/ratelimit.go:98-113 | in every run in which no clock reading precedes that of the last cleanup, up to five minutes after a cleanup every entry has been seen within the last fifteen minutes |
| `LimiterMap.EmptyKeyDefeatsTheCap` | backend/internal/middleware/ratelimit.go:55-96 | a run from the empty map, in time order and for any limits, that ends with more than 10000 entries |
| `LimiterMap.CapHoldsInEveryRun` | backend/internal/middleware/ratelimit.go:55-113 | in every run of requests with non-empty keys and cleanups, whatever the clocks and orders, the map stays within 10000 entries |
| `LimiterMap.StaleEvictionIsInvisible` | backend/internal/middleware/ratelimit.go:55-113 | while a burst refills in five minutes, less the time a request takes from lookup to answer, and only stale entries are evicted, every request of every timed run gets the decision of a map that never forgets |
| `LimiterMap.NobodyExceedsTheirRate` | backend/internal/middleware/ratelimit.go:124-142 | in every such run, from any request on, each key is granted at most a burst and what its rate yields in the time since, although buckets are evicted and replaced by full ones |
| `LimiterMap.RouterLimitersForgetInvisibly` | backend/internal/server/router.go:78-99 | the limits the router installs meet that condition, even with a minute from lookup to answer |
| `RateLimiter.RateLimiter.DropIdleEntries` | backend/internal/middleware/ratelimit.go:67-72 | deleting while iterating, in any order, removes exactly the idle entries |
| `RateLimiter.RateLimiter.FindOldest` | backend/internal/middleware/ratelimit.go:76-83 | the loop over the map is the scan in some order of its keys |
| `RateLimiter.RateLimiter.Evict` | backend/internal/middleware/ratelimit.go:66-88 | the two-stage eviction is the specified one |
| `RateLimiter.RateLimiter.GetLimiter` | backend/internal/middleware/ratelimit.go:55-96 | the map afterwards is the specified one and holds the returned limiter under the key |
| `RateLimiter.RateLimiter.CleanupTick` | backend/internal/middleware/ratelimit.go:98-113 | deletes exactly the entries last seen more than 600 seconds ago and leaves the others as they are; it is the cleanup event of the timed runs |
| `RateLimiter.RateLimiter.Handle` | backend/internal/middleware/ratelimit.go:124-142 | a request is allowed exactly when its bucket, or a full one for a new key, holds a token, which it then takes, asked after the lookup by a clock reading of its own; decision and map are those of the request event of the timed runs, so the theorems over runs hold of it |
| `Text.ParsedIdsAreCanonical` | backend/internal/polls/repository.go:100-108 | parsing the printed form of an accepted ID gives the same ID |
| `Text.ParsesIff` | backend/internal/polls/repository.go:100-108 | exactly the strings of 24 hexadecimal digits of either case are object IDs, and parsing lower-cases them |
| `Text.TrimTakesOnlySpace` | backend/internal/votes/service.go:64-66 | trimming cuts white space, and nothing else, off both ends |
| `Text.TrimTakesAllSpace` | backend/internal/votes/service.go:64-66 | what remains neither begins nor ends with white space |
| `Text.LowerCasing` | backend/internal/polls/validation.go:44 | lower-casing takes each capital to its own small letter and leaves every other character |

## Left out

- Timing of HTTP, JSON binding, authentication, configuration, logging, pagination and health checks: no state worth proving.
- Redis and MongoDB drivers: a command is one atomic step that happens completely or fails without effect; a command that takes effect and then fails is not modelled. Pipelines that fail half way and a status change whose read-back fails are.
- The thirty-day expiry of counters is the loss step of the protocol, which may happen at any time; the law of conservation then needs the losses it calls safe.
- The protocol machine keeps the list of option IDs in one order; updates permute it (`PollLifecycle.OptionIdsAreStable`), so the order of the rows in a snapshot taken around an update is not modelled.
- Integer width: counters and totals are unbounded naturals, so a 64-bit overflow and a counter field that is not a number (which the source reads as zero) are not modelled.
- Percentages are exact hundredths of a percent; floating-point rounding and the page's own one-decimal percentages are not modelled.
- Strings are sequences of ASCII characters: Unicode white space and case folding, and the difference between bytes and characters in the length limits, are not modelled.
- The handler's own sends after `Register` (backend/internal/websocket/handler.go:143-180) are one step that needs an open channel with room; that this always holds is not claimed, since the hub may have closed the channel by then.
- No claim is made that a viewer misses no update around its snapshot, which is taken before registration; gap-freedom starts at registration.
- No claim is made that every empty hub ends: a hub whose viewer fails before `Register` runs on.
- Pings, deadlines and the upgrade of a connection: a reading pump that stops is an unregister step, a writing pump is the consumption of a frame.
- go-redis's buffering of subscriptions between publication and `Broadcast`: frames may be lost, delayed or repeated there, which `Bounds.NoOverReporting` and `EndToEnd.ViewersNeverSeeMoreThanWasStored` allow.
- Strict refusal of votes after a close is not a property of the code; the weaker forms are `SingleVote.LateVotesWereAdmitted` and `SingleVote.DrainedTallyIsFrozen`.
- PollHub.PollHub.Run: takes its arms as a given complete execution rather than from channels; arbitrary interleaving with other goroutines is in the `Hub` and `Registry` machines.
- PollHub.HubManager.Shutdown: runs without interleaving; the interleaved one is in the `Registry` machine.
- RateLimiter.RateLimiter.Handle: serves one request at a time, so no other request comes between lookup and bucket; uses one clock reading within the lookup, and exact real arithmetic in the bucket.
- LimiterMap.StaleEvictionIsInvisible: does not cover the oldest-first branch, which forgets buckets that need not be full; `TokenBucket.ReplacementUnnoticedIffFull` says exactly when that shows.
- ServiceRefinement.CastVoteIsABallot: relates one call without store failures; the failures are in `ServiceRefinement.EveryCastVoteIsARun`, and both are about calls under the canonical poll ID.
- PollSystem.TotalsAgreeThroughout: takes updates whose ID-carrying requests name distinct IDs; `PollLifecycle.RepeatedIdLosesAnOption` is what others do.
- PollLifecycle.ClosedContentIsConstant: takes the creator's operations as sequential, each one step; what overlapping ones do is in `PollRaces`.
- PollLifecycle.EachClosingIsAnnouncedOnce: takes the creator's operations as sequential, too; overlapping closes are in `PollRaces.AnnouncementsUnderOverlap`.
- PollService.PollService.UpdateStatus: an attempted broadcast is recorded whether or not its publication succeeds.
- The page's closed flag and messages, which a `poll_closed` frame sets, are not part of the view; that it leaves the results alone is `Viewer.OnlyRelevantFramesShow`.
- Texts of error messages, and listing polls by creator: easy members.
