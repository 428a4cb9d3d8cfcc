# What a push relay promises, proved

The relay takes pushes from mail providers, quietens bursts of silent ones, queues them, limits
them per device, and puts them to Apple for the devices in its registration table. This project
models its five concurrent or stateful parts and the pipeline they make together:

- **the silent-push coalescer** — slots with one timer each, and at most one push held
  (`Coalescer`, `CoalescerTimers`, `CoalescerKeys`, `CoalescerSpacing`; as it is held:
  `SilentCoalescer`);
- **the token-bucket limiter** — rate arithmetic over real time, in a bounded map that forgets
  (`Limiter`, `LimiterForgetting`, `LimiterRate`; as it is held: `RateLimiter`);
- **the delivery queue** — a channel, a closed flag, a wait group and workers (`DeliveryQueue`;
  as it is held: `WorkerQueue`);
- **the registration store** — supersession, limits, ownership, pruning, and the file that
  mirrors the table (`Text`, `Listing`, `Store`, `StoreInvariants`, `StoreOperations`,
  `StoreRuns`, `StoreFanOut`; as it is held: `RegistrationStore`);
- **the cache of Google's signing keys** (`Jwks`), and **admission by subscription** for the
  expiry it hands on (`Entitlement`);
- **the pipeline** (`Pipeline`, and what is proved of it in `PipelinePlaces`,
  `PipelineAttempts`, `PipelineShutdown`, `PipelineComposition`, `PipelineDrain`,
  `PipelineForgetting`, `PipelineNewest`, `PipelineEntries`; as it is held: `Relay`, with
  `RelayRuns`).

## How it is built

Each concurrent part is a step system. A step is what one goroutine does between one lock and the
next; `Enabled` says when a step can be made, `Next` what it makes, and a run is any sequence of
enabled steps, so every statement over runs is over every interleaving. A send is two steps: the
commit, under the coalescer's lock, and the hand-over, after it. What the code does not decide is
a parameter of the step: the clock reading a call took before its lock, the order a flush meets
the slots in, the bucket a scan settles on, whether the disk takes a write, what Apple answers.

Beside each step system is a class with the source's own fields, updated in place by methods with
the source's own loops and branches. A method's contract equates the state it leaves with the step
system's, so what is proved of runs holds of it. `Relay` does this for the whole pipeline: its
methods pass pushes between the four component objects, and the contract of each is the list of
pipeline steps it makes when nothing interrupts it.

`dafny verify dfyconfig.toml` checks the project.

## Where the code does not keep what one might expect

- `internal/store/store.go:138-139` says that a device already here is always allowed to
  re-register. The code can refuse it: a row that names an address *second* is let in without
  being counted against that address's cap, but is counted when a row that names it *first*
  registers again. `StoreRuns.WhenARefreshIsRefused` gives the exact condition for every
  registration of the same device under its token, and `StoreRuns.ARefreshCanBeRefused` a run at
  every cap of 64 bits, the default among them, in which every token, device token and mode is one
  the handler lets through. `ErrFull` does keep the promise
  (`StoreInvariants.ReturningIsNotGrowth`).
- `internal/store/store.go:145-147` says that the same cap bounds how far one published message
  fans out. It bounds the rows that name an address first; rows that name it second are limited
  only by what the store holds (`StoreRuns.FanOutIsNotBounded`). The bound holds over a run
  exactly if each row that is stored has room at every address it names
  (`StoreFanOut.FanOutIsBoundedExactlyIf`), as it does where each device names one mailbox
  (`StoreFanOut.OneMailboxEachIsBounded`).
- When Apple says a device is gone, the row is deleted by relay token, some steps after the
  attempt. That takes the device Apple meant exactly if the row under the token is still its row
  (`PipelineForgetting.ForgetsTheReportedExactlyIf`); a registration stored in between is lost,
  though it was answered that all is well (`PipelineForgetting.StoredInBetweenIsLost`, and from
  the start `PipelineForgetting.ALiveRowCanBeForgotten`).
- A transaction accepted once can be refused later and before its end, since its certificates are
  checked at the instant of the call (`Entitlement.AcceptedAgainExactlyIf`). A row it was accepted
  for is served to the end all the same (`Entitlement.AcceptedIsServedToTheEnd`).
- A nil error from the store does not mean that the file has what memory has:
  `StoreRuns.FineIsNotWritten` is the case of a delete retried after a failed write, and
  `StoreRuns.WhenFineMeansWritten` the exact condition.
- The promise that shutdown makes to held pushes is broken only where a second caller of `Close`
  has closed the queue (`PipelineShutdown.OnlyAnotherCloseLosesIt`), which can happen
  (`PipelineShutdown.OneCloseIsNeeded`); and it covers only pushes still in a slot
  (`PipelineShutdown.OnlyHeldPushesAreSafe`).
- The first secret under a token holds over restarts that find the row as it was
  (`StoreRuns.FirstSecretHolds`), and can be lost where a write had failed
  (`StoreRuns.ARestartCanLoseTheSecret`).
- Forgetting full buckets goes unseen when readings of the clock reach the lock in order
  (`LimiterForgetting.ForgettingIsHarmless`), and can be seen when they do not
  (`LimiterForgetting.DisorderForgives`). Dropping a bucket goes unseen exactly if it is full
  (`LimiterForgetting.DroppingIsHarmlessExactlyIfFull`); so the eviction of the oldest, which
  only happens when nothing is full, can always be seen by some later calls
  (`LimiterForgetting.EvictionIsNeverHarmless`), though not by all. The two example runs,
  `LimiterForgetting.EvictionForgives` and `LimiterForgetting.DisorderForgives`, are runs of the
  limiter alone, whose keys may be any strings; theirs are not of the shape of relay tokens.
- The limiter's deletion of a bucket that is full after a token was taken is never reached
  (`Limiter.NothingFullAfterATake`; the branch is dead in `RateLimiter.RateLimiter.Take`).

## Model

| member | source | states |
|---|---|---|
| PipelinePlaces.ExactlyOnePlace | internal/relay/relay.go:520-618 | In every interleaving of pushes, timers, registrations, deletions, workers and shutdown, each push that entered is in exactly one place (held, carried between locks, taken by a flush, being added, queued, with a worker, or ended), as it entered, and nothing else is anywhere |
| PipelinePlaces.PlacedStep | internal/relay/relay.go:520-618 | Every single step of any goroutine keeps that |
| PipelinePlaces.FlushKeepsPlaced | internal/relay/coalesce.go:163-176 | A flush leaves no slot holding anything; all that was held, and nothing else, is the caller's to send; no other push moves, and each is still in exactly one place |
| PipelinePlaces.OfferSupersedes | internal/relay/coalesce.go:116-119 | A push offered to a slot that holds one is held in its place; the one it replaces ends superseded, for the first time; no other push moves |
| PipelinePlaces.StepOfTheQueue | internal/relay/queue.go:67-94 | Projected onto the queue, each step of the pipeline is a step of the queue alone or nothing |
| PipelineAttempts.AttemptedOnceAndAsSilentAsItArrived | internal/relay/relay.go:520-618 | In every interleaving no push is put to Apple twice; one is put as background exactly if it arrived silent or from a background registration, whatever its row is or becomes; an alert goes to the registration it arrived for; each goes under its own token, with the payload it arrived with |
| PipelineAttempts.EndedGrows | internal/relay/relay.go:557-618 | An end is for good: what has ended superseded, dropped, refused, limited, lapsed or attempted stays so, and no push ends twice |
| PipelineAttempts.FitStep | internal/relay/relay.go:523-555 | Every step keeps alerts out of the coalescer and each job's mode and token those of its push |
| PipelineAttempts.LoggedStep | internal/relay/relay.go:617-648 | Attempts at Apple and pushes that ended attempted stay one to one |
| PipelineShutdown.WhatASlotHeldIsNotLost | internal/relay/relay.go:100-117 | Whatever goes before and after: a push that a slot holds when a flush takes the lock has, once that caller and no other has closed the queue and the wait returns, been run by a worker, been refused as full, or found its row gone |
| PipelineShutdown.HeldAtShutdownIsNotLost | internal/relay/relay.go:111-117 | For any caller of Close, at every moment at which no other caller has closed the queue: it is closed only once all that caller took has been handed on, none of that ends superseded or at a closed queue, and once it is closed and the wait returns all of it has ended |
| PipelineShutdown.OnlyAnotherCloseLosesIt | internal/relay/relay.go:111-117 | Whatever callers of Close there are, a push one of them took is never superseded, and ends at a closed queue only where another caller has closed it |
| PipelineShutdown.OneCloseIsNeeded | internal/relay/relay.go:111-117 | A run from the start, for a row as it was stored, in which a second Close leaves a push that the first one took at a closed queue |
| PipelineShutdown.OnlyHeldPushesAreSafe | internal/relay/coalesce.go:121-123 | A run from the start, for a row as it was stored, in which a push that led its window is handed over after the one Close there is, and finds the queue closed |
| PipelineShutdown.StepOfTheCoalescer | internal/relay/coalesce.go:107-180 | Projected onto the coalescer, each step of the pipeline is a step of the coalescer alone or nothing |
| PipelineShutdown.OrderlyStep | internal/relay/relay.go:111-117 | While no other closer has closed the queue, every step keeps a closer's progress orderly: what it began to send is at rest by the next, and has ended fairly if it has ended |
| PipelineComposition.EachSlotKeepsItsPace | internal/relay/coalesce.go:107-148 | In every pipeline run before shutdown each slot sends on exactly what its windows call for, in order, at most once each, a window apart, and the newest push offered is held or was the last sent on |
| PipelineNewest.TheNewestArrives | internal/relay/coalesce.go:25-29 | In every pipeline run, shutdown and any callers of Close included, the newest push offered to a slot never ends superseded, and once all is over it has come to another end |
| PipelineEntries.FanOutRaisesNoBanner | internal/relay/relay.go:478-525 | In every run whatever is put to Apple for a push that a fan-out entered goes in the background, whatever mode its row is or was in, under that row's token and with its cursor |
| PipelineEntries.GoingPastIsNeverSuperseded | internal/relay/relay.go:527-534 | In every run a JMAP push that enters within 120 seconds of its registration, or a push that is to raise a banner, never ends superseded, and has ended otherwise once all is over |
| PipelineEntries.DroppedOnlyWhenFull | internal/relay/queue.go:33-81 | From every reachable state a step drops a push for a full queue only where exactly 1024 jobs wait, and with fewer the push being added is queued last |
| PipelineEntries.WhyAPushEnds | internal/relay/relay.go:544-648 | Each way for a push to end has its one cause: superseded by an offer to the slot that holds it, its row gone at the hand-over, the queue full or closed, the limiter refusing its token, its proof expired at the check, or an attempt |
| PipelineEntries.AnIdleWorkerTakes | internal/relay/queue.go:49-63 | From every reachable state, where a job waits and fewer than eight workers are busy, one of the eight can take it |
| PipelineComposition.AcceptedIsStartedInOrder | internal/relay/queue.go:51-84 | In every pipeline run the jobs accepted are those started, in order, and those waiting; at most 1024 wait and 8 run; when the wait can return all accepted were started and finished |
| PipelineComposition.AllThatEnteredHasEnded | internal/relay/relay.go:97-117 | Conservation: once nobody carries a push and the wait can return, the pushes that ended are exactly those that entered |
| PipelineComposition.ATokenWakesADeviceOnlySoOften | internal/relay/relay.go:580-591 | Over a whole pipeline run with readings in lock order, attempts at Apple under a token number at most a burst, one more for each time its bucket is evicted, and refill times the span of the readings; a token that is never the victim gets one burst |
| PipelineComposition.EveryAttemptWasAllowed | internal/relay/relay.go:584-591 | Over any run each attempt under a token is paid for by a call of the limiter that was allowed |
| PipelineComposition.BucketsStayBounded | internal/relay/limit.go:71-127 | In every interleaving of the pipeline's steps the limiter's map stays within its capacity and no bucket is above a burst |
| PipelineComposition.BucketsAreFew | internal/relay/limit.go:26-42 | From the start with the relay's own limits: never more than 8192 buckets, and none above twenty |
| PipelineComposition.StoreStaysSound | internal/relay/relay.go:637-643 | Deliveries that delete rows and handlers that change them, interleaved as they like, keep the table and its file sound |
| PipelineForgetting.ForgetsTheReportedExactlyIf | internal/relay/relay.go:637-643 | A delete that Apple's answer led to takes the rows of the device Apple reported, and nothing else, exactly if the row under the token is still that device's, or there is none and the device has no other |
| PipelineForgetting.StoredInBetweenIsLost | internal/relay/relay.go:637-643 | Whatever registration is stored under the same token between the attempt and the delete is answered fine and leaves its device without a row |
| PipelineForgetting.ALiveRowCanBeForgotten | internal/relay/relay.go:637-643 | A run from the start that comes to it: a device registers, a push for the row as it was stored is put to Apple and unknown there, it registers again, at any time, with the device token it has now, and has no row |
| PipelineDrain.OnlySoManySteps | internal/relay/relay.go:520-648 | In every interleaving from the start, the relay's own steps, waiting aside, are at most thirteen for each push that entered and one for each caller of Close |
| PipelineDrain.StepsAreBounded | internal/relay/relay.go:520-648 | Over any run the steps made and the effort left are at most the effort at first and what was asked meanwhile |
| PipelineDrain.EveryScheduleEndsAll | internal/relay/relay.go:97-117 | From every reachable state, whatever own steps are made in whatever order: they are at most the effort left, and where no more can be made, however long one waits, every push that ever entered has ended and the wait is free to return |
| PipelineDrain.StuckExactlyWhenOver | internal/relay/relay.go:97-117 | No own step can be made, after any wait, exactly when no effort is left, and exactly when nothing is carried, held, queued or with a worker, no timer is live and every closer is done |
| PipelineDrain.EveryPushCanEnd | internal/relay/relay.go:97-117 | Nothing is ever stuck: from every reachable state the relay's own steps can bring every push that entered to its end, with no window open and the wait free to return |
| PipelineDrain.Advance | internal/relay/relay.go:520-648 | Unless all is over, some step of the relay's own other than waiting is possible after some wait |
| RelayRuns.EnterRuns | internal/relay/relay.go:520-535 | Uninterrupted, a call of enqueueSilently is a possible run that ends with one more arrival, no goroutine carrying it, and nothing else changed but the coalescer, the queue and what ended |
| RelayRuns.OfferedExactlyIf | internal/relay/relay.go:523-535 | A push is offered to its slot exactly if pushes are coalesced, it is silent or its registration background, and it came by another lane than JMAP or 120 seconds or more after its registration; else it is submitted, and either way with the mode, payload and slot it is to have |
| RelayRuns.HandRuns | internal/relay/relay.go:544-555 | A hand-over reads the row again: gone, and the push is dropped; there, and it is queued for the row as it stands, silent |
| RelayRuns.DeliverRuns | internal/relay/relay.go:578-648 | A delivery spends from the limiter, and attempts exactly if allowed and not lapsed; the row is deleted exactly if Apple says the device is gone |
| RelayRuns.AttemptedExactlyIf | internal/relay/relay.go:584-605 | A job is put to Apple exactly if the limiter allows its token and its proof does not expire or has not: that push, for that row, in the background exactly if the row says so |
| RelayRuns.CloseRuns | internal/relay/relay.go:111-117 | Uninterrupted, shutdown is possible whatever the slots hold: the flush, each held push handed on in turn, and only then the closing; it leaves the coalescer flushed, all of it sent, the queue closed, and the store alone |
| RelayRuns.FanOutIsPerMailbox | internal/relay/relay.go:471-482 | Two fan-out pushes share a slot exactly if they are for one token and one normalised mailbox, and none shares a slot with a JMAP push |
| RelayRuns.EachIsTold | internal/relay/relay.go:466-482 | Each row of a fan-out is told silently whatever its mode, with the cursor as it came and the tag of its first account with the address, if there is one and it has one |
| Relay.Relay.constructor | internal/relay/relay.go:88-96 | The parts are new, belong to nobody else, and begin as the pipeline's initial state has them; pushes are coalesced exactly if the window is positive |
| Relay.Relay.EnqueueSilently | internal/relay/relay.go:520-535 | From any state the parts agree with, makes exactly the steps of an entry, the first of which is an offer to the coalescer exactly if there is one, the push goes out in the background, and it is not a JMAP push within 120 seconds of its registration |
| Relay.Relay.SendHeld | internal/relay/relay.go:544-555 | Makes exactly the steps of a hand-over |
| Relay.Relay.Submit | internal/relay/relay.go:557-570 | Makes exactly the steps of a submission, accepted or dropped |
| Relay.Relay.Deliver | internal/relay/relay.go:578-648 | Makes exactly the steps of a delivery, and returns what was put to Apple: something exactly if the limiter allowed it and the row had not lapsed |
| Relay.Relay.Work | internal/relay/queue.go:54-58 | A worker's turn: the first job waiting, delivered, and counted down |
| Relay.Relay.WindowEnds | internal/relay/coalesce.go:130-148 | A timer's callback: the held push is handed on and the window opened again, or the slot forgotten |
| Relay.Relay.Close | internal/relay/relay.go:111-117 | Flushes, hands on every held push, then closes the queue, in that order |
| Relay.Relay.FanOutGmail | internal/relay/relay.go:456-483 | Makes exactly the steps of one entry after another, one for each row that names the address, in ascending order of token; each row is told silently, with the cursor, the tag of its first account with the address, and the mailbox's lane |
| Coalescer.PairedAlways | internal/relay/coalesce.go:79-180 | In any run slots and live timers are two views of one thing until closed; after it there is no slot and only callbacks already fired |
| CoalescerTimers.OneTimerPerOpenSlot | internal/relay/coalesce.go:121-175 | While open, a key has a slot exactly when it has a live timer, and never two |
| CoalescerTimers.ClosedForGood | internal/relay/coalesce.go:109-137 | Once closed no slot opens and no timer is armed, and only what is newly offered is sent |
| CoalescerTimers.ExpiriesUseUpWork | internal/relay/coalesce.go:130-148 | With no further offers each expiry uses up one unit of work, two for a slot that holds and one for one that does not |
| CoalescerTimers.EveryBurstEnds | internal/relay/coalesce.go:127-148 | From every reachable open state the clock and the timers alone run everything out, to no slot and no timer, in exactly as many expiries as there was work |
| CoalescerTimers.HeldNoLongerThanAWindow | internal/relay/coalesce.go:121-144 | In any run an open slot's timer is due no later than a window from now |
| CoalescerTimers.AWindowFromNow | internal/relay/coalesce.go:121-144 | What opens a window, or opens one again, arms its timer for exactly a window from now |
| CoalescerKeys.KeysDoNotInterfere | internal/relay/coalesce.go:107-148 | Projecting any run onto one key gives a run of a one-slot coalescer on that key's own events |
| CoalescerKeys.SendsWhatIsDue | internal/relay/coalesce.go:105-148 | Before a flush each key is sent the first push of each busy period, then the newest of each window that received any, windows chained until one closes empty |
| CoalescerKeys.NewestGoesLast | internal/relay/coalesce.go:105-148 | Sent is, in order and each at most once, some of what was offered; the newest offered is held or was the last sent; with the slot gone it was sent |
| CoalescerKeys.FlushSendsTheNewest | internal/relay/coalesce.go:150-180 | After a flush the newest push offered to each key has been sent, and nothing was sent twice |
| CoalescerSpacing.AtMostOnePerWindow | internal/relay/coalesce.go:116-147 | Before a flush two commits under one key are at least a window apart, so a span holds at most one more than the windows that fit in it, however late timers run |
| SilentCoalescer.SilentCoalescer.Offer | internal/relay/coalesce.go:107-125 | In place: the new state and what is sent are the step's; reports whether the push was held |
| SilentCoalescer.SilentCoalescer.Expire | internal/relay/coalesce.go:130-148 | In place: the new state and what is sent are the step's |
| SilentCoalescer.SilentCoalescer.Flush | internal/relay/coalesce.go:157-180 | In place, slot by slot: every timer stopped, everything held sent once, no slot left, closed |
| SilentCoalescer.SilentCoalescer.OpenWindows | internal/relay/coalesce.go:184-188 | The number of slots with a window open |
| Lanes.SlotsAreApart | internal/relay/relay.go:531-531 | For tokens of the valid shape, two slot keys are equal exactly if token and lane are |
| Lanes.LanesAreApart | internal/relay/relay.go:481-482 | Mailboxes share a lane exactly when they normalise alike, and none has the JMAP lane |
| Limiter.BoundedStep | internal/relay/limit.go:71-127 | No call makes the map outgrow its capacity or a bucket hold more than a burst |
| Limiter.WhatACallDoes | internal/relay/limit.go:76-100 | A call is allowed exactly if its bucket, full if new and else topped up but not above the burst, holds a whole token, and leaves it less that token; a refusal is the first exactly if the call before it in that bucket was none |
| Limiter.WhatACallForgets | internal/relay/limit.go:77-113 | Other buckets are left alone while the key has one or the map has room; else the full ones go, and one more if that freed nothing |
| Limiter.NothingFullAfterATake | internal/relay/limit.go:93-98 | After a successful take the bucket is never full, so the deletion there is never reached |
| LimiterForgetting.ForgettingIsHarmless | internal/relay/limit.go:71-113 | With readings in lock order and no oldest victim taken, a limiter that forgets full buckets gives every answer, first refusals included, as one that never forgets |
| LimiterForgetting.DroppingIsHarmlessExactlyIfFull | internal/relay/limit.go:105-113 | With a burst of whole tokens, dropping a bucket goes unseen by every later call short of an eviction exactly if the bucket is full when it is dropped |
| LimiterForgetting.EvictionIsNeverHarmless | internal/relay/limit.go:114-126 | In a run from nothing in lock order, the first eviction can be told from not forgetting, at that instant, by asking for a burst for the key that fell, whoever falls next |
| LimiterForgetting.EvictionForgives | internal/relay/limit.go:114-126 | A run from nothing, at any limits with a burst of whole tokens and room for two, the relay's own among them, in which an evicted key is allowed what it would have been refused |
| LimiterForgetting.DisorderForgives | internal/relay/limit.go:72-73 | A run from nothing, at the same limits and with nobody evicted, in which a reading that reaches the lock late is allowed what it would have been refused |
| LimiterForgetting.AsConfigured | internal/relay/limit.go:26-42 | The limits the relay runs with are such limits: a burst of twenty, refilled in two minutes, for 8192 keys |
| LimiterRate.BurstPerEviction | internal/relay/limit.go:76-126 | From an allowed call of a key at reading s up to reading t, in lock order and with the key evicted k times, at most (k + 1) burst + refill (t - s) of its calls are allowed |
| LimiterRate.BurstAndRefill | internal/relay/limit.go:76-100 | With the key not evicted, at most burst + refill (t - s) |
| LimiterRate.BurstAndRefillInAnyOrder | internal/relay/limit.go:83-100 | The same with readings in any order, while the bucket is not taken away at all |
| LimiterRate.AllowedOverASpan | internal/relay/limit.go:71-127 | From an empty limiter, however it is asked, a key evicted k times is allowed at most k + 1 bursts and the refill between the first reading and the last |
| LimiterRate.OneAnnouncementASpell | internal/relay/limit.go:69-94 | While a key keeps its bucket, refusals announced as first are at most one more than the calls allowed between, and a spell that begins is announced |
| RateLimiter.RateLimiter.Allow | internal/relay/limit.go:71-100 | In place: the buckets, the answer and the first-refusal flag are the step's, and any victim is one a scan can settle on |
| RateLimiter.RateLimiter.ForgetFull | internal/relay/limit.go:105-127 | Forgets exactly the full buckets, and one of the rest only if that freed nothing |
| RateLimiter.RateLimiter.Oldest | internal/relay/limit.go:119-125 | The scan settles on a bucket, and unless a key is empty on one that none was last used before |
| DeliveryQueue.NeverOverCommitted | internal/relay/queue.go:67-81 | In any run the count is exactly queued + running + a submission not yet settled, never negative, with both bounds kept |
| DeliveryQueue.FirstInFirstOut | internal/relay/queue.go:51-81 | In any run, accepted is started then waiting, in order: none lost, none started twice |
| DeliveryQueue.ClosedAcceptsNothing | internal/relay/queue.go:70-72 | Nothing is accepted once the queue has closed |
| DeliveryQueue.WaitMeansDone | internal/relay/queue.go:83-84 | When the wait can return, every job ever accepted has been started, in order, and finished |
| DeliveryQueue.WorkersUseUpWork | internal/relay/queue.go:54-58 | Each worker step uses up one unit: two for a job waiting, one for a job running |
| DeliveryQueue.WorkersDrain | internal/relay/queue.go:54-58 | Workers alone can always bring the count to zero |
| WorkerQueue.WorkerQueue.Submit | internal/relay/queue.go:67-81 | In place: closed exactly if the queue is closed, full exactly if it is open and as many jobs wait as it has places, and otherwise the job is queued last and counted; nothing else changes |
| WorkerQueue.SubmitMeans | internal/relay/queue.go:70-80 | With the queue open and a place free, a submission comes to the job at the end, counted; else to nothing changed |
| WorkerQueue.WorkerQueue.Close | internal/relay/queue.go:86-94 | In place: closed, and closing again changes nothing |
| WorkerQueue.WorkerQueue.Work | internal/relay/queue.go:54-58 | A worker left alone runs what waits, in order, and brings the count down to those running elsewhere |
| StoreInvariants.SoundAlways | internal/store/store.go:245-501 | Every run keeps one row per device and topic, each row under its own token and in normal form, and both limits, the second for primary addresses |
| StoreInvariants.SoundStep | internal/store/store.go:245-544 | Every operation keeps that of the table and of the file, and a write the disk takes reads back as the table |
| StoreInvariants.WhatPutLeaves | internal/store/store.go:322-365 | What is found after a Put that is stored: under its token, the row as sent but for its addresses' shape and the date it already had; under any other, what was found before, unless that was a row of the same device, which is gone |
| StoreOperations.WhatPutAnswers | internal/store/store.go:246-320 | The answer to any Put by the first thing wrong: what was sent, its secret, more than eight accounts, or a table that would hold more rows, or more rows naming the primary address, than the limits |
| StoreOperations.WhatPutStores | internal/store/store.go:264-289 | The row as stored: as sent, but with the date it had or else was sent with or else was seen at; its accounts respelled and blank ones dropped, or its one address if none is left; and as primary that address or else its first account's |
| StoreOperations.WhatPruneLeaves | internal/store/store.go:486-501 | Pruning leaves a row exactly if it was seen since the one cut and does not expire before the other |
| StoreOperations.WhatDeleteIfOwnedDoes | internal/store/store.go:438-450 | A device's own delete is done for a row without a secret or with the secret shown, refused for any other row, and has nothing to do where there is none |
| StoreOperations.WhatIsWritten | internal/store/store.go:245-544 | While the process runs, the file is rewritten exactly if the table changed or a Put was stored and the disk takes it, and a failure is answered exactly if the disk does not |
| StoreOperations.WhatReopenFinds | internal/store/store.go:206-231 | Starting over is possible with any file that can be parsed, changes none, and finds the rows it holds |
| StoreOperations.WhoIsTold | internal/store/store.go:401-429 | The rows a notification is for are exactly those that name its address, however spelled, in either field |
| StoreInvariants.NetCountIsExact | internal/store/store.go:291-303 | The net count Put checks is the exact size the table will have |
| StoreInvariants.ReturningIsNotGrowth | internal/store/store.go:132-140 | In a sound table a device already here, or coming back under a new token, is never told the site is full |
| StoreInvariants.PutKeepsLimits | internal/store/store.go:304-352 | A Put that is stored keeps the total limit and the limit for every primary address |
| StoreInvariants.StoredIsNormal | internal/store/store.go:246-289 | Whatever a device sends, what is stored is in normal form |
| StoreInvariants.NormalRowIsFixed | internal/store/store.go:264-283 | A stored row put again is prepared as itself |
| StoreRuns.FileIsTheLastWrite | internal/store/store.go:503-544 | Over any run the file is the table as of the last write the disk took, whatever writes failed since |
| StoreRuns.ReopeningFindsIt | internal/store/store.go:206-231 | Starting over after a write the disk took finds the table that was written |
| StoreRuns.WhenFineMeansWritten | internal/store/store.go:438-501 | After an operation told all is well, file and memory agree exactly if it had something to write or they agreed before |
| StoreRuns.FineIsNotWritten | internal/store/store.go:455-463 | A delete the disk refused, asked for again, is told all is well with the row still in the file |
| StoreRuns.FirstSecretHolds | internal/store/store.go:254-266 | While a token stays, its secret once set and its creation date once set never change, over restarts that find it as it was too |
| StoreRuns.ARestartCanLoseTheSecret | internal/store/store.go:254-266 | From the start, for any registration: one stored without a secret, then with one while the disk refuses, is without one again after a restart |
| StoreRuns.OwnedRowsLeaveOnlySo | internal/store/store.go:324-501 | Over any run whose restarts find it as it was, an owned row that is gone was taken out by a step, before which it was there and after which it was not, that was a delete with its own secret, Delete, Prune of a stale row, or a Put of its own device under another token |
| StoreRuns.RefusalsChangeNothing | internal/store/store.go:245-320 | A refused operation leaves table and file as they were |
| StoreRuns.WhenARefreshIsRefused | internal/store/store.go:245-352 | A device already here that registers again under its token, with any accounts, times and mode: only its own row changes; it never meets the limit on rows; past the checks of what it sent it is refused exactly if the rows watching its primary address, itself among them, are more than the cap |
| StoreRuns.WhenTheSameRowIsRefused | internal/store/store.go:307-320 | The row as it was stored, put again, is stored as it was or refused exactly if more rows watch its primary address than the cap |
| StoreRuns.ARefreshCanBeRefused | internal/store/store.go:307-320 | At every cap below 10^32 that refusal is reached from an empty store by registrations whose token, device token, topic and mode the handler lets through (internal/relay/relay.go:206-240), each of them stored and both limits kept; and so is the one refused |
| StoreRuns.ARefreshCanBeRefusedByDefault | internal/store/store.go:161-168 | With the default limits, seventeen such devices are enough |
| StoreRuns.FanOutIsNotBounded | internal/store/store.go:145-147 | At every limit for an address, as many rows watch one address as the store holds at all, each stored as handlers send it; the limit does hold for the rows that name the address first |
| StoreFanOut.PutKeepsFanOutExactlyIf | internal/store/store.go:304-352 | Where no address is watched by more than the limit, a Put that is stored keeps it so exactly if, at every address the row names, it and the other devices watching there are within the limit |
| StoreFanOut.FanOutIsBoundedExactlyIf | internal/store/store.go:145-147 | Over any run, restarts and refused writes included, no address is ever watched by more than the limit exactly if each row that is stored has room at every address it names |
| StoreFanOut.OneMailboxEachIsBounded | internal/store/store.go:145-147 | Over any run in which each device names one mailbox, no address is ever watched by more than the limit |
| Listing.OneListing | internal/store/store.go:508-514 | A table has one listing, so what is written does not depend on the order rows are met in |
| Listing.LoadUndoesListing | internal/store/store.go:223-229 | Reading back what was written gives the table that was written |
| Listing.LastRowWins | internal/store/store.go:223-229 | Of several rows with one token in a file the last is the one loaded |
| Listing.ListedLists | internal/store/store.go:508-513 | Sorting lists every row once, in ascending order of token |
| Text.NormaliseTwice | internal/store/store.go:267-274 | Normalising an address twice is normalising it once |
| Text.NormaliseMeans | internal/store/store.go:267-274 | White space at either end goes, and of the rest A to Z become a to z and nothing else changes |
| Text.BeforeMeans | internal/store/store.go:427-427 | One token is before another exactly if it ends, or has the lesser character, at the first place where they differ |
| RegistrationStore.RegistrationStore.Open | internal/store/store.go:206-231 | A file that cannot be parsed gives no store; a missing or empty one gives no rows; a list of rows gives the table they make |
| RegistrationStore.RegistrationStore.Put | internal/store/store.go:245-354 | In place: the checks in their order, then the row stored, its superseded rows dropped and the file written, as the step; the answer says which check refused |
| RegistrationStore.RegistrationStore.Consider | internal/store/store.go:246-320 | The verdict of every check, in order, and the row as it would be stored |
| RegistrationStore.RegistrationStore.KeepAccounts | internal/store/store.go:272-277 | Every address normalised, blank ones dropped, order kept |
| RegistrationStore.RegistrationStore.CountSuperseded | internal/store/store.go:294-299 | Counts exactly the other rows of the same device and topic |
| RegistrationStore.RegistrationStore.CountForAddress | internal/store/store.go:308-316 | Counts the row itself and exactly the other devices watching its primary address |
| RegistrationStore.RegistrationStore.DropSuperseded | internal/store/store.go:345-352 | Drops exactly the other rows of the same device and topic |
| RegistrationStore.RegistrationStore.DeleteIfOwned | internal/store/store.go:438-450 | In place: refused, with nothing changed, exactly if there is a row with a secret whose hash is not that of the one shown; otherwise gone |
| RegistrationStore.RegistrationStore.Delete | internal/store/store.go:455-463 | In place: gone, and the file written only if it was there |
| RegistrationStore.RegistrationStore.Prune | internal/store/store.go:486-501 | In place: a row stays, as it was, exactly if it was seen since the one cut and has no expiry or none before the other; the number of the rest is returned, and the file is written only if some went |
| RegistrationStore.RegistrationStore.FlushLocked | internal/store/store.go:508-544 | The file becomes the table's one listing, or stays as it was |
| RegistrationStore.RegistrationStore.ByGmail | internal/store/store.go:414-429 | Exactly the rows that name the normalised address in either field, strictly ascending by token, and none for a blank one |
| RegistrationStore.TagIsTheFirstMatch | internal/store/store.go:390-399 | The first account with the address, however spelled, gives the tag |
| RegistrationStore.NoMatchNoTag | internal/store/store.go:390-399 | With no such account there is no tag |
| Jwks.OneFetchPerWindow | internal/relay/pubsub.go:92-108 | However many callers interleave, fetches begin at least the retry window apart |
| Jwks.HonestFromTheStart | internal/relay/pubsub.go:83-127 | Any key a call returns was in the cache under its kid at some moment of the call |
| Jwks.FailuresCostNoKey | internal/relay/pubsub.go:71-118 | While fetches fail, however long and however many calls, and whatever earlier calls were told, every call for a kid the cache has that had decided nothing yet is answered with its key |
| Jwks.NothingOnlyIfMissing | internal/relay/pubsub.go:83-127 | In any run from the start, successes and failures alike, a call is answered with no key only if the cache was without its kid at some moment of the call |
| Jwks.ASuccessMayDropAKey | internal/relay/pubsub.go:119-125 | A successful fetch without the kid costs a caller the key it had cached |
| Jwks.LastUsableWins | internal/relay/pubsub.go:147-164 | A kid is served by its last usable entry in the document, and by none if it has none |
| Jwks.KeyCache.Key | internal/relay/pubsub.go:83-127 | In place and uninterrupted, a call makes the steps of a caller; it fetches exactly if the kid is missing or the cache over an hour old, and the last claim ten minutes back or more, and then answers from what it fetched, which is the cache from then on; else, or if that fails, from the cache as it was |
| Jwks.ClaimFetchesExactlyIf | internal/relay/pubsub.go:92-108 | Under the write lock a fetch is claimed exactly if the kid is missing or the cache over an hour old, and the last claim ten minutes back or more; else the cache is the answer and nothing changes |
| Jwks.PeekServesExactlyIf | internal/relay/pubsub.go:83-90 | Under the read lock a call is served exactly if the kid is there and the cache at most an hour old |
| Jwks.WhatAFetchGives | internal/relay/pubsub.go:110-127 | A fetch that fails gives what was cached at the claim; one that succeeds is the cache from then on, and the answer |
| Jwks.KeyCache.Load | internal/relay/pubsub.go:147-168 | Fills the map from the usable entries, and fails if there are none |
| Entitlement.AcceptedIsServedToTheEnd | internal/entitlement/entitlement.go:76-82 | A transaction is accepted only before expiry plus grace; its row is never taken for one that does not expire, and delivery serves it at exactly the instants before that end |
| Entitlement.AcceptedAgainExactlyIf | internal/entitlement/apple.go:151-259 | Once a transaction has been accepted, at any other instant it is accepted as it was exactly if its certificates lead to Apple then, the age of its signature is allowed then and its end is to come; otherwise the first of the three that fails is what refuses it |
| Entitlement.AdmittedExactlyIf | internal/entitlement/entitlement.go:58-90 | Who may register: anyone if nothing is asked; who shows the secret; or, showing none, who brings a transaction that is Apple's now, for this app, a product of it, a subscription, not revoked, from the right environment, signed in time, with its end to come; nobody else |
| Entitlement.AdmittedWith | internal/entitlement/entitlement.go:62-82 | A secret or an open relay gives no expiry; a transaction gives its expiry plus the grace and the instant it was signed |
| Entitlement.AShownSecretDecides | internal/entitlement/entitlement.go:65-75 | Where a secret is set, one that is shown decides alone: no transaction, verifier, app or instant changes the answer, and it is yes exactly for a secret of the same hash |
| Entitlement.PruningFollowsDelivery | internal/store/store.go:491-494 | Pruning for expiry takes exactly rows delivery already refused before the cut, and refuses at the cut and ever after |

## Left out

- Text.NormaliseTwice: upper case is folded for ASCII letters only; the trimming is Unicode's White_Space.
- Listing.LoadUndoesListing: encoding a row as JSON and decoding it again is taken to be the identity, and strings are compared character by character where Go compares bytes, which is the same for the tokens in use.
- DeliveryQueue.FirstInFirstOut: a channel of depth zero, which would hand a job straight to a waiting worker, is not modelled; the source only makes one of depth 1024.
- Relay.Relay.EnqueueSilently: the coalescer object is always there and left alone when the window is zero, where the source has none; the number that identifies a push is the model's own.
- Relay.Relay.FanOutGmail: one reading of the clock serves the whole fan-out; on this lane no decision depends on it.
- LimiterRate.BurstPerEviction: tokens, rates and time are reals, so neither floating-point rounding nor the saturation of a duration is captured.
- Jwks.OneFetchPerWindow: a fetch begins when the right to it is claimed under the lock, which is when the source sets its clock; the request itself follows with no lock held. Readings under the lock do not go backwards.
- Jwks.KeyCache.Load: decoding of modulus and exponent, and the width of the exponent, are reduced to an entry having a key or not.
- Entitlement.AcceptedIsServedToTheEnd: what a text with a good signature claims, and at which instants its certificates lead to Apple, are given functions.
- RegistrationStore.RegistrationStore.DeleteIfOwned: the hash of a secret is any function; comparison in constant time is equality.
- RegistrationStore.RegistrationStore.Put: the caller's own slice of accounts is normalised in place by the source; rows are values here.
- StoreInvariants.SoundAlways: starts from no file or one this store wrote, as the source checks nothing when it opens one.
- HTTP parsing, routing, status codes, logging and the health endpoint: no state of their own.
- The APNs client: one attempt that is accepted, failed, or answered that the device is gone.
- The content of payloads, beyond a Gmail push's cursor and tag.
- Temporary files, fsync and permissions: a write either replaces the file or leaves it.
- Minting of tokens, the shape check of secrets, and the answers a handler gives to malformed requests.
- Memory layout of the channel and the scheduling of goroutines: any enabled step may be next.
