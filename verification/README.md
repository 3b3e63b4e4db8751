# BrightBean Studio: verified models of its scheduling, analytics and API core

BrightBean Studio schedules social-media posts into recurring posting slots, turns platform counters into
daily analytics, and offers an agent API guarded by keys, quotas and idempotency records. This project models
that logic in Dafny and proves what it guarantees. Every theorem is for all inputs, all states or all runs.

`dafny verify dfyconfig.toml` checks everything.

## Layout

| file | contents |
|---|---|
| `Common` | options, least elements, stable sort, distinctness and counting |
| `Slots` | weekly slots, the 60-day walk, the bounded lookahead |
| `Ladder` | the greedy upward climb of `prioritize` and its closed form |
| `Store` | the tables: posts, children per channel, queues of entries, parents, slots, clock |
| `QueueOps` | the queue operations as functions on the tables |
| `QueueLaws`, `EditLaws` | what add, prioritize, remove and reorder mean |
| `QueueService` | the imperative operations, each equal to its function |
| `Booking` | no double booking, per operation |
| `Runs`, `RunLaws` | the scheduler with the publisher as a state machine; when its steps and runs are sound |
| `Provenance` | what each step changes, and which steps of a run its rows, queues, jobs and retries came from |
| `EarlyRetry` | runs in which a retry starts ahead of its slot |
| `Repair` | the repair of rows scheduled after their publication |
| `PostSeries`, `SeriesLaws`, `Bundle`, `BundleLaws` | cumulative counters to daily series, conservation, the bulk read |
| `Engagement` | engagement rate, period split and delta |
| `Cadence` | the age-decaying sync schedule and its lifetime bound |
| `Idempotency` | the claim, finalize, release and sweep protocol |
| `Token`, `KeyCache` | bearer tokens, per-worker row caches, revocation |
| `Quota`, `QuotaMessage` | the rolling quota, the 429 message and its parser |
| `Recurrence`, `WallClock`, `Generation` | the dates of a recurrence rule, local wall clocks, and the clones made for the dates |

The source changes rows in place, so `QueueService.Calendar`, `Repair`, `Idempotency.IdempotencyStore`,
`KeyCache.KeyService` and `Generation.RecurrenceJob` are classes and methods whose contracts equate the new
state with a function of the old one; the laws are then proved about those functions. The two protocols and
the scheduler are also state machines whose steps interleave freely; their invariants hold in every state of
every run.

## What the proofs found

- **`prioritize` does not guard the prioritised post.** The comment at `apps/calendar/services.py:206-207`
  speaks of such a guard; only movers are guarded. `PrioritizeKeepsHistoryIff` says, from the state before the
  call, when history survives; `PrioritizeRewritesHistory` shows that otherwise a published post is moved.
- **The ladder sees a window.** Only entries in the first `movable + 2` slots move; a mover may jump over a
  queue entry beyond the window, so order is kept among movers (`LadderKeepsOrder`).
- **`reorder_queue` needs distinct ids.** With a repeated id it can put two posts on one instant
  (`RepeatedIdDoubleBooks`); `ReorderKeepsBookingIff` is the exact condition, by counting how often entries with
  earlier or equal instants are named.
- **A queued draft keeps its slot when removed.** There is no draft-to-draft edge, so only a child that may
  return to draft vacates its instant (`RemoveLeavesGap`).
- **Not every step is safe.** A calendar drag, a recurrence clone and an API post write without an occupancy
  check, a child can be deleted without syncing its parent, the composer can publish by hand ahead of the schedule,
  and the publisher saves whole rows as it read them. `Runs.Safe` says for each step, from the state before it,
  exactly what it needs, and `RunKeepsInvIff` that a run is sound exactly as long as its steps are.
- **A retry ignores the schedule.** The retry query asks only for `retry_count` and `next_retry_at`, so a child
  reslotted while it waits starts ahead of its new slot. Publishing it frees that slot for the next post; if the
  attempt then fails the channel is double-booked, and if it succeeds the row needs repair. `DoubleBookedRun` and
  `CorruptedRun` are such runs. The due query's answer can also be overtaken before the row is locked.
- **An API-key change is not immediate.** `update_api_key` promises that the new scope applies on the very next
  request, but its only cache busts run inside its transaction: a request between bust and commit caches the old row
  again, and the call after the commit is served it (`EditedRowIsServedOld`). A revocation is visible before its
  bust; there only a read already under way can do this (`RevocationIsImmediateIff`). `ChangeIsImmediateIff` is the
  exact condition for either order. Staleness is bounded by 30 seconds plus the gap between a read and its store, and
  the bound is reached (`RevocationBoundIsReached`).
- **Work may repeat.** `posts.py` releases a claim when anything after `create_post` fails, so the work may already
  have been done. It succeeds exactly once per such late release, and once more if done under the present row
  (`OwnersAndEffects`); `AtMostOneEffectIff` says when that is at most once.
- **79, not 80, syncs.** By age band at most 24 + 24 + 23 + 9 syncs of a post are recorded, but not all at
  once: nine in the last band leave twenty in the one before. The loop's per-platform window lowers this to 75 for
  TikTok and to none for Bluesky, Mastodon and personal LinkedIn. Each bound is reached.
- **`retry_after` is one second short** except when under a second is left (`RetryAfterAlonePassesIff`), and
  the quota check is not atomic with the entry it admits: the limit can be exceeded by one less than the requests
  ever between check and entry at once, and that is reached (`OverlapBoundsExcess`, `ExcessIsReached`).
- **The engagement denominator is views first.** The docstring of `engagement_rate` lists reach first; the list it
  goes by has views, reach, impressions, plays (`ChosenIsFirst`).
- **Clones drift over a clock change.** A child's distance from its post is measured in absolute time but added on
  the wall clock. `CloneKeepsOffsetsIff` says exactly when it is kept; when the clocks change between a post and its
  child it is not (`ClockChangeBreaksOffsets`, `OctoberClone`).
- **Recurrence.** Interval 0 clones a source that lies ahead 180 times onto its own date; a rule runs dry once its
  180th occurrence has passed, so a daily one stops for good after 180 days (`RuleRunsDry`); a source whose
  children are all unscheduled is cloned again on every run.

## Model

| member | source | states |
|---|---|---|
| Slots.NextSlotDatetimes | brightbean-studio/apps/calendar/services.py:42-84 | the nested day and slot loops return the first `count` (at least one) instants of the full 60-day horizon, however early they stop |
| Slots.HorizonExact | brightbean-studio/apps/calendar/services.py:42-84 | the horizon holds exactly the active-slot instants after `after` on the 60 local days from it |
| Slots.HorizonIncreasing | brightbean-studio/apps/calendar/services.py:42-84 | horizon instants strictly increase and all lie after `after` |
| Slots.HorizonMissesNothing | brightbean-studio/apps/calendar/services.py:61-84 | no slot instant after `after`, on any day, precedes one the walk returns |
| Slots.WeekdaysFollow | brightbean-studio/apps/calendar/services.py:61-68 | day 1 is a Monday and the weekdays follow each other: a slot falls on one day of any seven, and on two days exactly when they are whole weeks apart |
| Slots.FirstFreeMeaning | brightbean-studio/apps/calendar/services.py:127-141 | the free slot chosen is unoccupied with everything before it occupied; none is found only if all are occupied |
| Slots.Pigeonhole | brightbean-studio/apps/calendar/services.py:127-141 | more distinct candidates than occupied instants leave a free one |
| Slots.BoundedLookaheadIsExact | brightbean-studio/apps/calendar/services.py:127-141 | looking at occupied + 1 candidates finds the same slot as scanning the whole horizon |
| QueueService.Calendar.OccupiedDatetimes | brightbean-studio/apps/calendar/services.py:106-124 | collects exactly the future instants held by unprotected children of the channel other than the post |
| QueueService.Calendar.NextAvailableSlot | brightbean-studio/apps/calendar/services.py:127-141 | the bounded lookahead returns the first free instant of the whole horizon, or none |
| QueueService.Calendar.SyncPostScheduledAt | brightbean-studio/apps/composer/services.py:22-63 | the parent takes the least schedule of its children, or none |
| Store.SyncRestores | brightbean-studio/apps/composer/services.py:22-63 | after one post's children change, re-syncing that post alone puts every parent back at its children's minimum |
| QueueService.Calendar.EnsureQueueEntry | brightbean-studio/apps/calendar/services.py:169-177 | get-or-create of the post's entry equals the specified append |
| Store.EnsureEntryAppends | brightbean-studio/apps/calendar/services.py:169-177 | a new entry goes behind every position in use and shows no slot yet; nothing else in the tables changes |
| QueueService.Calendar.AssignSlot | brightbean-studio/apps/calendar/services.py:180-189 | writes the slot to entry, child and parent as specified |
| Store.WriteSlotFrame | brightbean-studio/apps/calendar/services.py:180-189 | the child holds the slot and its row in the queue shows it; no other child, row, queue or parent changes, and parents stay in step |
| Store.WriteSlotsFrame | brightbean-studio/apps/calendar/services.py:278-297 | of several successive slot writes the last to each child decides; unnamed children keep their schedule |
| Store.WriteSlotsShow | brightbean-studio/apps/calendar/services.py:278-297 | of several successive slot writes the last to each post is what its row shows; every other row of every queue shows what it did |
| QueueService.Calendar.AddPostNextAvailable | brightbean-studio/apps/calendar/services.py:192-217 | the imperative add computes the specified state and outcome |
| QueueLaws.AddTakesFirstFree | brightbean-studio/apps/calendar/services.py:192-217 | a protected post is left alone; otherwise the post alone moves, to the first unoccupied instant of the horizon, joins the queue behind every other, and its row alone shows the instant; full exactly when there is none, and then nothing changed |
| QueueService.Calendar.MovableEntries | brightbean-studio/apps/calendar/services.py:234-247 | collects the queue's other entries whose child is unprotected and in the future |
| QueueLaws.MovableExact | brightbean-studio/apps/calendar/services.py:234-247 | membership of the movable list, both ways |
| QueueService.Calendar.MoversInWindow | brightbean-studio/apps/calendar/services.py:275-277 | files each movable entry under its candidate index |
| QueueLaws.LadderMoversExact | brightbean-studio/apps/calendar/services.py:275-286 | the movers are exactly the movable entries inside the candidate window, each once, highest first |
| QueueLaws.AvoidedIsFixed | brightbean-studio/apps/calendar/services.py:270-284 | what the climb avoids is exactly what posts that stay put hold |
| QueueService.Calendar.NextOpenCandidate | brightbean-studio/apps/calendar/services.py:287-295 | the inner search with re-fetched candidates terminates and finds the least open index of the whole horizon, or reports that there is none |
| Ladder.NextOpenIsLeast | brightbean-studio/apps/calendar/services.py:287-295 | the index found is open and everything skipped was claimed or avoided |
| QueueService.Calendar.ClimbLadder | brightbean-studio/apps/calendar/services.py:278-297 | the loop over movers writes exactly the greedy climb, and fails exactly when it does |
| Ladder.ClimbIsSafe | brightbean-studio/apps/calendar/services.py:278-297 | from any schedule each mover lands strictly later, on an index nobody avoids or claimed, no two on one |
| Ladder.ClimbFailsIff | brightbean-studio/apps/calendar/services.py:284-297 | the climb fails exactly when some mover has no more open slots above it than movers before it |
| Ladder.LadderOfDistinctMovers | brightbean-studio/apps/calendar/services.py:270-299 | closed form: each mover lands on its own least later free slot, no later than the next higher mover's old slot; failure is decided by the highest mover alone |
| Ladder.DestinationIsLeast | brightbean-studio/apps/calendar/services.py:287-295 | a landing is the least later index whose instant no fixed post holds, both ways |
| QueueService.Calendar.TakeFrontOrGap | brightbean-studio/apps/calendar/services.py:256-268 | the branch without ladder takes slot 0 or the first gap, or writes nothing |
| QueueService.Calendar.SurveyQueue | brightbean-studio/apps/calendar/services.py:236-277 | reads the movable entries, the candidate window and the movers in it, highest first |
| QueueService.Calendar.LadderThenFront | brightbean-studio/apps/calendar/services.py:284-299 | the branch with a ladder: all movers climb, then the post takes the front slot, or some mover found none |
| QueueService.Calendar.PlaceInFront | brightbean-studio/apps/calendar/services.py:253-299 | adds the entry and takes one of the two branches as specified |
| QueueService.Calendar.PrioritizePost | brightbean-studio/apps/calendar/services.py:220-299 | the imperative prioritize, with its rollback, computes the specified state and outcome |
| QueueLaws.PrioritizeWithoutLadder | brightbean-studio/apps/calendar/services.py:253-268 | when no movable entry holds slot 0 only the post moves, to the first unoccupied instant, and its row alone shows it |
| QueueLaws.PrioritizeLadders | brightbean-studio/apps/calendar/services.py:253-299 | when one does: the post gets slot 0, every mover its least later slot free of fixed posts, and their rows show it; every other child and row stays; full exactly when a mover has no such slot, and then nothing changed |
| QueueLaws.LadderShows | brightbean-studio/apps/calendar/services.py:253-299 | from any valid state, double-booked or not, the rows after a ladder: the post joins last, every row it moved shows where the climb put it, all others show what they did |
| QueueLaws.LadderKeepsOrder | brightbean-studio/apps/calendar/services.py:270-299 | a lower mover always has a landing and it is no later than the higher mover's old slot; order is strict |
| QueueLaws.LadderShiftsByOne | brightbean-studio/apps/calendar/services.py:270-299 | a mover shifts by exactly one slot if and only if no fixed post holds the next one |
| QueueLaws.PrioritizeFailsIff | brightbean-studio/apps/calendar/services.py:249-268 | from any valid state, double-booked or not, the exact condition for a full queue; the state is then unchanged |
| QueueLaws.PrioritizeKeepsHistoryIff | brightbean-studio/apps/calendar/services.py:220-299 | protected children keep their schedules exactly when the prioritised post is unprotected, or the queue is full, or the slot on offer is the one it holds; all three are read off the state before the call |
| QueueLaws.PrioritizeGivesSlot | brightbean-studio/apps/calendar/services.py:253-299 | unless the queue is full the post gets the slot on offer, a future one, and no other protected child moves |
| QueueLaws.PrioritizeRewritesHistory | brightbean-studio/apps/calendar/services.py:220-299 | a published or publishing post whose schedule has passed is moved to a future slot whenever the queue is not full |
| QueueService.Calendar.RemoveFromQueue | brightbean-studio/apps/calendar/services.py:302-326 | the imperative removal computes the specified state |
| EditLaws.RemoveLeavesGap | brightbean-studio/apps/calendar/services.py:302-326 | the entry goes, and with a child that may return to draft its schedule and all its entries on the channel; every other child is untouched, and every other entry of every queue stays, as it was and in its order |
| EditLaws.DropFromChannelKeeps | brightbean-studio/apps/composer/services.py:265-277 | drafting a child drops its entries from every queue of the channel; all other entries stay, in their order, and other channels' queues are untouched |
| Store.MayReturnToDraft | brightbean-studio/apps/composer/models.py:363-379 | the statuses from which the workflow lets a child return to draft |
| QueueService.Calendar.CollectReorderable | brightbean-studio/apps/calendar/services.py:361-369 | keeps the named entries that exist and are unprotected, in the order given |
| QueueService.Calendar.AssignSlots | brightbean-studio/apps/calendar/services.py:375-378 | writes the sorted instants to the entries one by one |
| QueueService.Calendar.Renumber | brightbean-studio/apps/calendar/services.py:380-383 | numbers the entries whose position as read differs |
| QueueService.Calendar.ReorderQueue | brightbean-studio/apps/calendar/services.py:347-383 | the imperative reorder computes the specified state, for any id list |
| EditLaws.ReorderEffect | brightbean-studio/apps/calendar/services.py:358-383 | for any id list, repeats included: each entry ends with the pool instant at its last occurrence and its row shows it; protected, unslotted and unnamed posts keep their schedule, and their rows and other queues what they showed |
| EditLaws.ReorderIsSortedPermutation | brightbean-studio/apps/calendar/services.py:358-383 | with distinct ids the multiset of instants is unchanged and entries read in the given order ascend |
| EditLaws.ReorderSetsPositions | brightbean-studio/apps/calendar/services.py:380-383 | with distinct ids the i-th named entry gets position i, others keep theirs |
| Booking.AddKeepsBooking | brightbean-studio/apps/calendar/services.py:106-217 | adding never double-books a future instant |
| Booking.PrioritizeKeepsBooking | brightbean-studio/apps/calendar/services.py:220-299 | prioritising never double-books a future instant |
| Booking.ReorderKeepsBooking | brightbean-studio/apps/calendar/services.py:347-383 | reordering with distinct ids never double-books a future instant |
| Booking.ReorderKeepsBookingIff | brightbean-studio/apps/calendar/services.py:347-383 | with any ids, it does not exactly when no two entries fall on one future instant held now, counting how often earlier and equal instants are named |
| Booking.ClashIffDealtAlike | brightbean-studio/apps/calendar/services.py:371-378 | that count, of ids and present schedules, says exactly which entries the reorder deals the same future instant |
| Booking.RepeatedIdDoubleBooks | brightbean-studio/apps/calendar/services.py:347-383 | naming the later of two future posts twice, ahead of the other, always double-books |
| RunLaws.SaveKeepsBookingIff | brightbean-studio/apps/calendar/views.py:1045-1070 | saving any row, new or old, without looking keeps the channel free of double bookings exactly when the row is protected or its instant past or unclaimed |
| RunLaws.EndKeepsInvIff | brightbean-studio/apps/publisher/engine.py:208-310 | a publishing job that ends keeps the tables sound exactly when its time has come, on success, or its instant is past or unclaimed, on either failure, and the schedule as read fits the parent |
| RunLaws.ToFrontKeepsInvIff | brightbean-studio/apps/calendar/services.py:220-299 | prioritising breaks the past exactly when the post is published and the queue not full |
| RunLaws.DragKeepsInvIff | brightbean-studio/apps/calendar/services.py:347-383 | a reorder with any ids keeps the tables sound exactly when no two entries fall on the same future instant |
| RunLaws.RescheduleKeepsInvIff | brightbean-studio/apps/calendar/views.py:1045-1070 | a drag on the calendar keeps them sound exactly when its instant is past or unclaimed |
| RunLaws.WithdrawKeepsInv | brightbean-studio/apps/composer/services.py:221-284 | moving a child back to draft keeps them sound |
| RunLaws.TransitionKeepsInvIff | brightbean-studio/apps/composer/views.py:1044-1090 | a move of the status alone keeps them sound exactly when, into published, its time has come, and, out of publishing, its instant is past or unclaimed |
| RunLaws.DeleteChildKeepsInvIff | brightbean-studio/apps/composer/views.py:2140-2163 | deleting one child without a sync keeps them sound exactly when it was the last or a sibling is at least as early |
| RunLaws.DeletePostKeepsInv | brightbean-studio/apps/composer/views.py:2140-2163 | deleting a post with its children and entries keeps them sound |
| RunLaws.FitsParentIff | brightbean-studio/apps/composer/services.py:22-63 | a child's new schedule leaves the parent at the minimum exactly when it is the old one or a sibling is no later than either |
| RunLaws.StepKeepsInvIff | brightbean-studio/apps/publisher/engine.py:102-585 | every step, from queue operations, blind writes, manual moves and deletions to the publisher's two queries, early starts and all ends of a job, keeps the tables sound exactly when it is safe |
| RunLaws.RunKeepsInvIff | brightbean-studio/apps/publisher/engine.py:102-585 | a run keeps them sound all along exactly when each of its steps is safe where it happens |
| RunLaws.NeverDoubleBooked | brightbean-studio/apps/calendar/services.py:155-383 | in every state of a run of safe steps no two unprotected children of a channel share a future instant, parents are the minimum of children, published rows are not scheduled after publication |
| RunLaws.CarefulRunsAreSafe | brightbean-studio/apps/calendar/services.py:155-383 | runs that prioritise unprotected posts, drag distinct ids, look before blind writes, leave a publishing child to its job, delete no child that decides its parent, and start nothing early or from an outdated row are safe throughout |
| Provenance.StepConcernsOnly | brightbean-studio/apps/publisher/engine.py:102-585 | no step writes the row of a child it does not name; a queue operation writes rows of its channel only |
| Provenance.RescheduleShows | brightbean-studio/apps/calendar/views.py:1045-1070 | a calendar drag gives the child its instant and every row of it on the channel shows that; every other row and every other channel's queue stays |
| Provenance.StatusMoves | brightbean-studio/apps/composer/models.py:363-379 | the status every step gives every child; queue operations but the removal give none |
| Provenance.MovesAreLegal | brightbean-studio/apps/composer/models.py:363-379 | every move is along the workflow, unless the publisher writes a row that changed under it |
| Provenance.MembershipLaw | brightbean-studio/apps/calendar/services.py:155-383 | a queue gains a post exactly by adding or prioritising it there with a slot to be had, and loses one exactly when it is removed, drafted, published or deleted |
| Provenance.PublicationsHappened | brightbean-studio/apps/publisher/engine.py:229-240 | in any run whatever is published was published by a job that succeeded on it, or by hand, at the moment its row says |
| Provenance.OwnStepMovesTimes | brightbean-studio/apps/publisher/engine.py:208-310 | the schedule and the stamp a step gives its child: a job's end puts back both as it read them, and only a publication stamps |
| Provenance.HistoryIsFinal | brightbean-studio/apps/calendar/services.py:86-100 | in careful runs a published row is never written again until its post is deleted |
| Provenance.JobsRunFromStartToEnd | brightbean-studio/apps/publisher/engine.py:208-310 | a job exists exactly from its start until it ends or dies, on the child it was started for |
| Provenance.DueWereWaiting | brightbean-studio/apps/publisher/engine.py:133-150 | the due query has offered exactly the children that at some poll were scheduled with their own time, or for want of one their post's, come |
| Provenance.PickedWereWaiting | brightbean-studio/apps/publisher/engine.py:561-577 | the retry query has offered exactly the rows that at some poll were waiting for one of three retries whose time had come |
| Provenance.RetriesWereGiven | brightbean-studio/apps/publisher/engine.py:539-558 | in any run every retry, wherever it is read, was given by a failure on that child: at most the third, one, five or thirty minutes after it |
| EarlyRetry.EarlyFailureDoubleBooks | brightbean-studio/apps/publisher/engine.py:539-585 | in every setting of the kind, a run of transient failure, wait, reslot, early retry, add and final failure ends double-booked |
| EarlyRetry.EarlySuccessNeedsRepair | brightbean-studio/apps/publisher/engine.py:539-585 | the same run ending in success leaves a published row scheduled after its publication |
| EarlyRetry.DoubleBookedRun | brightbean-studio/apps/publisher/engine.py:530-585 | a concrete such run from sound tables |
| EarlyRetry.CorruptedRun | brightbean-studio/apps/publisher/engine.py:560-585 | a concrete such run from sound tables |
| Repair.RepairFuturePublishedScheduledAt | brightbean-studio/apps/calendar/services.py:386-507 | the repair reports the corrupt rows and their counts, and applies exactly the specified change or, dry, none |
| Repair.ApplyRepair | brightbean-studio/apps/calendar/services.py:468-495 | the transaction pins siblings, snaps rows and queue entries, re-syncs parents, in this order, and counts as it goes |
| Repair.PinSiblings | brightbean-studio/apps/calendar/services.py:482-487 | pending siblings without a schedule of their own get their parent's before it moves |
| Repair.SnapTarget | brightbean-studio/apps/calendar/services.py:455-499 | resets the stale queue rows of one target and counts them |
| Repair.SnapOneMore | brightbean-studio/apps/calendar/services.py:455-499 | rows of different targets are disjoint, so a count taken while writing equals a dry run's |
| Repair.RepairIsIdempotent | brightbean-studio/apps/calendar/services.py:386-507 | afterwards no published row in scope is scheduled after its publication, and repairing again changes nothing |
| Repair.RepairTouchesLittle | brightbean-studio/apps/calendar/services.py:419-507 | exactly the corrupt rows and the pending siblings living on the parent beside one change, only in their schedule: to the publication, and to the parent's schedule as it was |
| Repair.RepairTouchesFewQueueRows | brightbean-studio/apps/calendar/services.py:455-493 | of the queue rows exactly those showing a corrupt child later than its publication change, only in the slot shown, and none is later afterwards |
| Repair.RepairStaysInWorkspace | brightbean-studio/apps/calendar/services.py:409-429 | with one workspace given none of its rows stays corrupt, and no child, queue row or parent of another workspace changes |
| Repair.RepairKeepsDueTimesIff | brightbean-studio/apps/calendar/services.py:473-495 | every pending child keeps its effective due time exactly when no touched post without a schedule has a pending child living on it |
| Repair.RepairIsSafe | brightbean-studio/apps/calendar/services.py:419-507 | from synced parents, every pending due time is kept and the parents stay synced |
| Repair.SafeRunsNeedNoRepair | brightbean-studio/apps/calendar/services.py:386-429 | no state reached by safe steps has a row to repair |
| Repair.SuccessNeedsRepairIff | brightbean-studio/apps/publisher/engine.py:229-240 | a publication creates a row to repair exactly when it comes before its own schedule |
| PostSeries.CreditFirst | brightbean-studio/apps/analytics/services.py:195-215 | a post's first reading is anchored, spread evenly from publication, or credited to its day |
| PostSeries.PostSummedSeries | brightbean-studio/apps/analytics/services.py:122-224 | the single grouped pass equals the sum over posts of each post's own credits, and returns the latest capture |
| SeriesLaws.FirstReadingCredit | brightbean-studio/apps/analytics/services.py:195-215 | what a first reading credits to each day: an even share from publication on, all of it to its own day, or nothing |
| SeriesLaws.LaterCredit | brightbean-studio/apps/analytics/services.py:216-223 | what a post credits to each later day: on a reading day the rise above the highest before, nothing in between |
| SeriesLaws.HighWaterIsMax | brightbean-studio/apps/analytics/services.py:181-224 | the mark is the maximum of the readings, and one of them |
| SeriesLaws.PostIsConserved | brightbean-studio/apps/analytics/services.py:181-224 | a post's credits sum to its highest reading, less an anchoring first one |
| SeriesLaws.ConservedUpToReading | brightbean-studio/apps/analytics/services.py:181-224 | up to any reading day they sum to the running maximum so far |
| SeriesLaws.SeriesIsConserved | brightbean-studio/apps/analytics/services.py:181-224 | the window's series sums to the marks of all posts, less the anchors |
| SeriesLaws.SeriesIsNonNegative | brightbean-studio/apps/analytics/services.py:181-224 | with non-negative readings every credit is non-negative and inside the window |
| SeriesLaws.MaxCapturedIsMax | brightbean-studio/apps/analytics/services.py:181-224 | the freshness returned is the latest capture, and one of them |
| Bundle.ReadSeries | brightbean-studio/apps/analytics/services.py:77-102 | the single read: account rows, or the post series when there are none, as a contiguous window |
| BundleLaws.DaysAreRows | brightbean-studio/apps/analytics/services.py:86-94 | with one row per metric and day, the days of a metric are exactly those of its rows, each with its own row's value |
| BundleLaws.ReadShowsRows | brightbean-studio/apps/analytics/services.py:77-102 | the i-th value of the single read is the row's value of the i-th day, zero without one; for a metric with no row that posts stand in for, what the post series credits to that day |
| BundleLaws.FallbackMetrics | brightbean-studio/apps/analytics/services.py:105-119 | the metrics posts may stand in for, one by one |
| Bundle.OverlayMetrics | brightbean-studio/apps/analytics/services.py:286-299 | the loop over metrics overlays exactly those whose fallback is to be used |
| Bundle.AccountAnalyticsBundle | brightbean-studio/apps/analytics/services.py:241-304 | the bulk read computes every metric's merged window and the freshness |
| Bundle.BundleRefinesSingleReads | brightbean-studio/apps/analytics/services.py:77-304 | the bundle's series is the single read's, except where account rows exist and the post data is strictly fresher: then the post series laid over the rows |
| BundleLaws.CapturedIsLatest | brightbean-studio/apps/analytics/services.py:267-276 | the freshness of a metric is the latest capture among its own rows |
| BundleLaws.BundleShowsRows | brightbean-studio/apps/analytics/services.py:241-304 | the i-th value of the bundle, from the rows: what the post series credits to that day when the metric has no row or posts with a reading newer than all its rows, else the row's value or zero |
| Bundle.FreshnessIsLatest | brightbean-studio/apps/analytics/services.py:253-304 | the freshness is the maximum over all account rows and exactly the fallbacks used |
| Engagement.SumsExchange | brightbean-studio/apps/analytics/derive.py:87-134 | summing interactions over any span of days day by day or metric by metric gives the same total |
| Engagement.PartsAreInteractions | brightbean-studio/apps/analytics/derive.py:87-104 | over complete data the parts summed are the listed interaction metrics' own series, each once, whatever order they were stored in |
| Engagement.ChosenIsFirst | brightbean-studio/apps/analytics/derive.py:88-91 | the denominator chosen is the first in the listed order with a positive current total |
| Engagement.RateIsInteractionsOverDenominator | brightbean-studio/apps/analytics/derive.py:72-141 | the rate is a hundred times what the interaction metrics' own series add up to over the current days, over the chosen denominator's total; the delta compares with the same for the previous period |
| Engagement.RateIsWeightedMean | brightbean-studio/apps/analytics/derive.py:87-134 | with a denominator positive each day, the rate lies between two values of the sparkline |
| Engagement.SparklineIsDailyRate | brightbean-studio/apps/analytics/derive.py:118-134 | the sparkline of a day is the interactions of that day over the first denominator positive on it, zero without one, and the bare sum when none is stored |
| Engagement.RateIgnoresOlderDays | brightbean-studio/apps/analytics/derive.py:94-134 | series of any lengths: days before the two periods play no part |
| Engagement.RateFallsBackToFollowers | brightbean-studio/apps/analytics/derive.py:106-114 | with no positive denominator both periods are set against the followers |
| Engagement.DeriveAccountsForSeries | brightbean-studio/apps/analytics/derive.py:38-69 | over complete data value and previous total add up to the series, the change applied to the one gives the other, and averaging scales the value by the days and leaves the change alone |
| Cadence.LookUpInterval | brightbean-studio/apps/analytics/tasks.py:41-61 | the table walk finds the interval of the age band, none from ninety days |
| Cadence.YouTubePathKeepsDue | brightbean-studio/apps/analytics/tasks.py:379-381 | writes of the YouTube analytics path never change whether a post is due |
| Cadence.DueIff | brightbean-studio/apps/analytics/tasks.py:594-624 | a post is due exactly when it is published, under ninety days old, and every capture that counts for its platform is at least its interval ago |
| Cadence.InWindowIff | brightbean-studio/apps/analytics/tasks.py:66-81 | the window of the per-post loop, platform by platform, its last moment included |
| Cadence.EventStamps | brightbean-studio/apps/analytics/tasks.py:704-716 | an event stamps exactly what it writes; a tick outside the window or on a post that is not due does nothing |
| Cadence.RecordedAreSpaced | brightbean-studio/apps/analytics/tasks.py:594-624 | whatever else writes to the post, consecutive recorded syncs are the later one's interval apart and none is recorded at ninety days or more |
| Cadence.RecordedAreInWindow | brightbean-studio/apps/analytics/tasks.py:704-716 | none is recorded outside the platform's window |
| Cadence.LifetimeSyncsAreBounded | brightbean-studio/apps/analytics/tasks.py:704-716 | over any run at most 79 cadence-driven syncs of a post are recorded, 75 on a sixty-day platform, none on one with no window |
| Cadence.LifetimeSyncBound | brightbean-studio/apps/analytics/tasks.py:41-61 | any spaced sequence of syncs inside the platform's window is at most that long |
| Cadence.SpacedIsRecorded | brightbean-studio/apps/analytics/tasks.py:594-624 | conversely every spaced sequence inside the window is what some run records |
| Cadence.LifetimeSyncBoundIsReached | brightbean-studio/apps/analytics/tasks.py:66-81 | for every platform and publication instant a run records as many syncs as the bound allows |
| Idempotency.IdempotencyStore.ClaimIdempotencySlot | brightbean-studio/apps/api/middleware.py:136-188 | insert wins, else passthrough, mismatch, in flight or replay; the table changes only on a win |
| Idempotency.IdempotencyStore.FinalizeIdempotentResponse | brightbean-studio/apps/api/middleware.py:191-209 | stores status and body on the slot's row, if any, and touches nothing else |
| Idempotency.IdempotencyStore.ReleaseIdempotentClaim | brightbean-studio/apps/api/middleware.py:212-230 | deletes the slot's row only while pending, and touches nothing else |
| Idempotency.IdempotencyStore.SweepStaleIdempotencyRecords | brightbean-studio/apps/api/tasks.py:34-55 | deletes exactly the rows older than the time to live and counts them; every other row, finished or pending, stays as it was |
| Idempotency.StepKeepsInv | brightbean-studio/apps/api/middleware.py:136-230 | every step of every worker, crashes and the sweep included, keeps the protocol invariant |
| Idempotency.StepsComposeToClaim | brightbean-studio/apps/api/middleware.py:165-188 | the interleaved steps of a claim, taken without a pause, are the one call |
| Idempotency.OwnersAndEffects | brightbean-studio/apps/api/middleware.py:136-230 | in every run a slot has at most one live owner, and since its last sweep its work has succeeded exactly once per late release, and once more if it has under the present row |
| Idempotency.AtMostOneEffectIff | brightbean-studio/apps/api/middleware.py:136-230 | the work has succeeded at most once exactly when no claim was released late, or one was and the work was not done again |
| Idempotency.ReplaysAreFinalized | brightbean-studio/apps/api/middleware.py:160-188 | a replay returns a status and body finalized for that slot and that fingerprint; another fingerprint is never replayed to |
| Idempotency.ReplayLasts | brightbean-studio/apps/api/tasks.py:34-55 | in any run, as long as the time to live lasts, the same request is answered with the status and body its row was finished with |
| Idempotency.AnswersMean | brightbean-studio/apps/api/middleware.py:177-188 | read off the run: vanished exactly when no claim stands, mismatch exactly when the claim that stands is for another fingerprint, in flight or replay exactly as that claim has not or has been finalized |
| Idempotency.CrashBlocks | brightbean-studio/apps/api/middleware.py:150-156 | a dead worker's claim answers in flight for as long as the time to live lasts, whatever else happens |
| Idempotency.SweepFreesOrphan | brightbean-studio/apps/api/tasks.py:34-55 | after that the sweep frees it and a retry owns it |
| Idempotency.FinalsComeFromOwners | brightbean-studio/apps/api/middleware.py:191-209 | whatever was finalized came from an owner with that fingerprint whose work had succeeded |
| Idempotency.LateReleaseRepeatsWork | brightbean-studio/apps/api/routers/posts.py:244-286 | a claim released after its work succeeded lets it succeed again: the bound is reached |
| Idempotency.OverdueClaimLosesSlot | brightbean-studio/apps/api/tasks.py:34-55 | a claim held past the time to live loses its row, and the slot can have two owners |
| Quota.RollingQuotaHolds | brightbean-studio/apps/api/limits.py:99-163 | with one request at a time between check and entry, in every run the consuming rows that entered in the last day number at most the limit, whatever edits happen |
| Quota.StepKeepsInv | brightbean-studio/apps/api/limits.py:99-163 | every pass, entry, drop, edit and passage of time keeps the bound on budget spent and promised |
| Quota.OverlapBoundsExcess | brightbean-studio/apps/api/routers/posts.py:418-434 | however requests interleave, those rows exceed the limit by less than the passes ever out at once |
| Quota.ExcessIsReached | brightbean-studio/apps/api/routers/posts.py:418-434 | for every positive limit and overlap some run comes to one less than their sum |
| Quota.PassedTogetherHoldIff | brightbean-studio/apps/api/routers/posts.py:418-434 | rows that passed the check in one state and then all enter keep the limit exactly when there was room for all of them together |
| Quota.RetryAfterPlusOnePasses | brightbean-studio/apps/api/limits.py:133-163 | exactly at a positive limit, waiting `retry_after + 1` seconds or more always passes |
| Quota.RetryAfterAlonePassesIff | brightbean-studio/apps/api/limits.py:133-163 | `retry_after` alone passes exactly when the oldest row had under a second to go |
| Quota.LockedOutIff | brightbean-studio/apps/api/limits.py:69-84 | an account is refused for good, however long it waits, exactly when its override is zero |
| Quota.PassesIff | brightbean-studio/apps/api/limits.py:69-131 | a request passes exactly while fewer scheduled, publishing, published or failed rows were touched in the last day than the account's limit: its override, else the platform's, else fifty |
| Quota.TouchProlongs | brightbean-studio/apps/api/limits.py:99-122 | an edit that moves `updated_at` keeps a row counted for a day from then, any other not longer than before |
| QuotaMessage.ParseQuotaMessage | brightbean-studio/apps/api/api.py:259-281 | the token loop computes the parts of the words and the headers of the parts |
| QuotaMessage.WordsAreVisible | brightbean-studio/apps/api/api.py:267-270 | splitting loses whitespace and nothing else and yields no empty word |
| QuotaMessage.PrintParsesBack | brightbean-studio/apps/api/limits.py:166-172 | decimal print and parse are inverse |
| QuotaMessage.MessageRoundTrip | brightbean-studio/apps/api/limits.py:166-172 | parsing the formatted message recovers tier, limit, remaining and retry_after, nothing more or less |
| QuotaMessage.HeadersCarryNumbers | brightbean-studio/apps/api/api.py:259-281 | the three headers carry the message's own numbers |
| QuotaMessage.TierSurvivesIff | brightbean-studio/apps/api/api.py:259-281 | the tier comes back exactly when none of its characters is whitespace and it is empty or not all digits |
| Token.ParsePrinted | brightbean-studio/apps/api_keys/services.py:93-120 | parsing a printed token returns its secret, underscores included, and its lookup |
| Token.ParsesIffPrinted | brightbean-studio/apps/api_keys/services.py:93-120 | a string parses exactly when it is the printed form of the secret it yields |
| Token.PrintIsInjective | brightbean-studio/apps/api_keys/services.py:197-200 | different secrets print differently |
| KeyCache.KeyService.VerifyToken | brightbean-studio/apps/api_keys/services.py:331-411 | one worker's verification: result and cache, hit or miss |
| KeyCache.VerifiesIff | brightbean-studio/apps/api_keys/services.py:331-411 | a verification succeeds exactly when the row it sees, cached or stored, is unrevoked, unexpired, carries the hash of the secret presented and has a member for issuer |
| KeyCache.KeyService.RevokeApiKey | brightbean-studio/apps/api_keys/services.py:289-300 | stamps the revocation once and busts this worker's cache |
| KeyCache.KeyService.InvalidateApiKeyCache | brightbean-studio/apps/api_keys/services.py:303-319 | removes only that key's entry from this worker's cache |
| KeyCache.KeyService.UpdateApiKey | brightbean-studio/apps/api_keys/services.py:215-286 | refuses an editor who may not manage keys or is no member, and an empty or foreign allowlist, changing nothing; otherwise the edit decides within the editor's grant, other permissions stay, accounts and expiry are written and this worker's cache is busted |
| KeyCache.StepsComposeToVerification | brightbean-studio/apps/api_keys/services.py:331-383 | the interleaved steps, taken without a pause, are the one-worker verification |
| KeyCache.StepKeepsInv | brightbean-studio/apps/api_keys/services.py:289-383 | every step of every worker keeps each cached row within its staleness window |
| KeyCache.RevocationIsBounded | brightbean-studio/apps/api_keys/services.py:289-383 | in every run a verification starting 30 seconds plus the read-to-store gap or more after a revoking write fails, on any worker |
| KeyCache.RevocationBoundIsReached | brightbean-studio/apps/api_keys/services.py:289-383 | for every gap some run verifies a request started a microsecond short of that bound |
| KeyCache.ChangeIsImmediateIff | brightbean-studio/apps/api_keys/services.py:215-383 | whether the bust comes before or after the write is visible, a later call on that cache is served a row from before the write exactly when such a row was stored since the bust, is still there and unexpired |
| KeyCache.RevocationIsImmediateIff | brightbean-studio/apps/api_keys/services.py:289-319 | when the write is visible first, as in a revocation, exactly when a read under way at the write was stored after the bust, active, and is still there and unexpired |
| KeyCache.EditedRowIsServedOld | brightbean-studio/apps/api_keys/services.py:279-283 | with the bust before the commit, a request in between puts the old row back and the call after the commit is served it, for every live key and without a read under way at the write |
| KeyCache.VerifiedIsGenuine | brightbean-studio/apps/api_keys/services.py:331-411 | every verified request passed, at the moment of its check, with a secret hashing to the row's hash, the row unexpired and unrevoked, its issuer a member |
| KeyCache.RemovedIssuerIsRejected | brightbean-studio/apps/api_keys/services.py:386-411 | while the issuer's membership is gone no request becomes verified on that issuer's key, cached or not |
| KeyCache.RemovalIsImmediate | brightbean-studio/apps/api_keys/services.py:386-411 | from the step that removes an issuer until one that gives a membership back, nobody becomes verified on its key |
| KeyCache.RoleChangeIsImmediate | brightbean-studio/apps/api/auth.py:60-85 | a change of role shrinks or widens every key of that issuer at once, within its grant, and no other |
| KeyCache.EffectivePermissionsAreBounded | brightbean-studio/apps/api/auth.py:60-85 | a verified request's permissions are exactly those its row grants that its issuer holds now, and the key held them all at some instant of the staleness window |
| Recurrence.ComputeRecurrenceDates | brightbean-studio/apps/calendar/tasks.py:147-168 | the loop lists the occurrences up to the end date, never more than the safety limit |
| Recurrence.DayOccurrence | brightbean-studio/apps/calendar/tasks.py:153-157 | the k-th daily or weekly occurrence is k steps of days from the base |
| Recurrence.MonthOccurrence | brightbean-studio/apps/calendar/tasks.py:158-159 | the k-th monthly occurrence is k intervals of months on, its day clipped by every month visited |
| Recurrence.ClippedDayIsMin | brightbean-studio/apps/calendar/tasks.py:158-159 | that day is the minimum of the base day and the lengths of the months visited |
| Recurrence.DatesIncreaseIff | brightbean-studio/apps/calendar/tasks.py:147-168 | dates strictly increase exactly when the interval is positive or the base lies past the end; none is past the end |
| Recurrence.OccurrenceListedIff | brightbean-studio/apps/calendar/tasks.py:151-166 | an occurrence is listed exactly when it is not past the end and within the safety limit |
| Recurrence.DatesCompleteIff | brightbean-studio/apps/calendar/tasks.py:151-166 | every occurrence up to the end is listed exactly when the one after the safety limit lies past it |
| WallClock.YearStartIsGregorian | brightbean-studio/apps/calendar/tasks.py:147-168 | the dates stepped through are those of the Gregorian calendar: days before a year in closed form |
| Generation.RecurrenceJob.CloneOnto | brightbean-studio/apps/calendar/tasks.py:76-120 | clones the source onto a date at its local time, each child its distance later on the wall clock, and syncs the clone |
| Generation.RecurrenceJob.CloneOntoDates | brightbean-studio/apps/calendar/tasks.py:72-138 | clones onto exactly the dates after today with no generated post, and counts them |
| Generation.RecurrenceJob.ApplyRule | brightbean-studio/apps/calendar/tasks.py:31-138 | horizon, dates, existing dates and clones of one rule as specified; a source without schedule is skipped |
| Generation.RecurrenceJob.GenerateRecurringPosts | brightbean-studio/apps/calendar/tasks.py:20-144 | the job applies the rules in turn, stamps those whose source has a schedule, and returns how many posts it created |
| Generation.StampsExact | brightbean-studio/apps/calendar/tasks.py:31-141 | exactly the rules whose source has a schedule are stamped, with the moment of the run |
| Generation.RulePendingMembers | brightbean-studio/apps/calendar/tasks.py:51-74 | what a rule generates: its dates after today on which no other post of the workspace has the caption at its local date, both ways |
| Generation.OccurrenceGeneratedIff | brightbean-studio/apps/calendar/tasks.py:42-74 | the k-th occurrence is generated exactly when it is after today, within ninety days and the end date, free of such posts, and k within the safety limit |
| Generation.RuleGeneratesOccurrences | brightbean-studio/apps/calendar/tasks.py:42-74 | nothing but occurrences is generated, and no date twice |
| Generation.RuleGeneratesAllWantedIff | brightbean-studio/apps/calendar/tasks.py:42-74 | everything wanted is generated exactly when nothing wanted lies beyond the safety limit |
| Generation.RuleRunsDry | brightbean-studio/apps/calendar/tasks.py:42-74 | once the last listed occurrence is not after today the rule generates nothing |
| Generation.CloneKeepsOffsetsIff | brightbean-studio/apps/calendar/tasks.py:89-120 | clones are synced, and keep every child's offset to its post exactly when no child is scheduled, or the source is synced and the clocks run evenly from the clone's wall clock to every child's |
| Generation.ClockChangeBreaksOffsets | brightbean-studio/apps/calendar/tasks.py:89-120 | a synced source whose child lies behind a fall-back of the clocks is cloned with that child an hour late |
| Generation.OctoberClone | brightbean-studio/apps/calendar/tasks.py:89-120 | a concrete such clone: twelve hours become thirteen |
| Generation.CloneOfSynced | brightbean-studio/apps/calendar/tasks.py:76-120 | where the clocks are steady the clone of a synced source stands at the source's local time on its date |
| Generation.SecondRunIsIdleIff | brightbean-studio/apps/calendar/tasks.py:53-120 | a rule run twice at one moment is idle the second time exactly when every pending date has a clone standing on it |
| Generation.UnscheduledChildrenAreClonedAgain | brightbean-studio/apps/calendar/tasks.py:53-120 | a source whose children are all unscheduled is cloned onto the same dates again |
| Generation.SecondRunCreatesNothing | brightbean-studio/apps/calendar/tasks.py:20-144 | with every source synced and its clocks steady, a second run of all rules at the same moment creates nothing |
| Generation.NoDateIsGeneratedTwice | brightbean-studio/apps/calendar/tasks.py:20-144 | over any sequence of runs at any moments no generated post shares workspace, caption and local date with another post |
| Generation.ZeroIntervalClashes | brightbean-studio/apps/calendar/tasks.py:147-168 | with interval zero a source ahead, within the horizon and alone on its date, is cloned 180 times onto it, any other not at all |

## Left out

- Providers, views, templates, e-mail, notifications, admin and all I/O.
- IANA zone data: zones are abstract. Slot resolution is assumed strictly increasing on the slots used (no slot
  inside a DST gap), and local days are assumed to follow instants in `Slots.HorizonMissesNothing`. `Generation`
  assumes of a source's zone only that its local time stays on its date and is not in a gap that a child jumps over
  (`Steady`).
- Slots in a repeated or skipped hour: Python holds such an aware datetime unequal to every datetime of another zone,
  so the membership tests of the scheduler never see the slot as taken. Instants are plain numbers here, and the
  assumption above does not exclude the repeated hour.
- The forms that edit posting slots: an edit may set any valid configuration.
- Float rounding and the final `round` of analytics values: values are reals.
- Days without the chosen denominator: the sparkline then borrows another one or shows zero, and the rate is no mean of it; the mean is proved for days that have it.
- Cryptography: digests are abstract functions; only their length and alphabet are used.
- QuotaMessage.ParseQuotaMessage: whitespace outside Latin-1 and digits outside ASCII are not modelled.
- Provenance.DueWereWaiting: the hold guards of the publisher and its limit on the rows a poll returns are left out, so
  more runs are covered than occur; queue operations are atomic under the channel lock, also against the publisher.
- RunLaws.StepKeepsInvIff: composer forms that write a parent's schedule without its children are not among the steps; nor is the permission and approval logic around manual moves.
- QueueService.Calendar.SyncPostScheduledAt: clearing `proposed_publish_at` is left out; it concerns no schedule.
- Idempotency.OwnersAndEffects: live claims are assumed to be held for less than the time to live; `Idempotency.OverdueClaimLosesSlot` shows what happens otherwise.
- Quota.OverlapBoundsExcess: the limit is constant, and only entries through the API, which pass the check, are covered.
- Cadence.LifetimeSyncsAreBounded: a cron tick is one instant, though the loop reads the clock again for each post.
- `touch_last_used`, failed-auth counters, throttles and the checks of `issue_api_key`.
- Repair.RepairFuturePublishedScheduledAt: the order of the reported rows and logging.
- Generation.RecurrenceJob.CloneOnto: captions per platform, media attachments, tags and notes of clones, which are copied unchanged, and Python's limits on years.
- Magic links, role lookups and model declarations.
