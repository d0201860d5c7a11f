# DownloadTask lifecycle model

A Dafny model of `DownloadTask`, the per-download state machine of the
DownloadX library. One task owns:

- one lifecycle state (`None`, `Waiting`, `Started`, `Stopped`, `Failed`,
  `Succeed`), mirrored into a latest-value state cell;
- a started counter that gates progress sampling;
- an optional attempt job and an optional transfer collaborator (the
  "downloader");
- the save name and save path of its download parameters.

The task is modelled as the class `Tasks.DownloadTask`. Its methods change
these fields in place, as the Kotlin class does:

- `Start`: publish `Waiting`, then hand the task to the queue; publish
  `Failed` if the queue throws.
- `SuspendStart`: one download attempt.
- `Stop`: cancel the job and publish `Stopped`.
- `GetState`, `GetProgress` and `ProgressFlow`: the state read, the progress
  read and the progress sampling loop.

Every collaborator's result is a method parameter:

- whether the queue's enqueue throws;
- the request's outcome: a response (successful or not, with or without a
  body, and the file name derived from it), or an exception from the request
  itself;
- how the transfer ends: it returns, it fails, or it is cancelled;
- the snapshots the transfer collaborator reports.

`SuspendStart` is composed of two phases:

- `LaunchAttempt` runs from the active-job guard up to publishing `Started`.
- `AwaitTransfer` runs from the end of the transfer to closing the response.

Because of this split, a second start or a `stop()` can be placed between the
phases. That is how the model shows that a start call that begins after the
running attempt's job has been assigned (or any call on a single-threaded
scope) never doubles the attempt, and that a stop during the transfer
publishes `Stopped` and never `Failed`.

The class invariant `Valid()` states:

- the current state equals the state cell's value;
- the state cell's value is the last entry of `published`, the record of
  every value written to the cell;
- the started counter equals the number of `Started` entries in that record;
- a started counter above zero implies that a transfer collaborator exists;
- a response is open exactly while a job is active.

`Sampling.Sampled` gives the snapshots the progress loop emits. The lemmas
about it characterise those snapshots fully: they are a prefix of the
reported snapshots; each was taken while the state was not an end state;
only the last can be complete; and the loop stops only at an end state, after
a complete snapshot, or when the subscriber detaches.

Behaviours of the code a caller may not expect; the model follows the code:

- A request that throws publishes nothing and closes nothing
  (`request(...)` sits before the `try`). Unlike the other failures of an
  attempt, it is never reported as `Failed`.
- `suspendStart` does not check `canStart`. A task in `Succeed` therefore runs
  a new attempt when `suspendStart` is called again (`SucceededTaskRunsAgain`).
- `start()` publishes `Waiting` in every state, including `Started` and
  `Succeed`.
- The transfer collaborator is never cleared after an attempt.
  `getProgress` keeps asking the last collaborator.

`State.isEnd()` is defined outside the modelled file. It is taken to hold
exactly for `Stopped`, `Failed` and `Succeed` (`Values.State.IsEnd`).
`Default.DEFAULT_SAVE_PATH` is not part of this model. Its value is the
constant `defaultSavePath`, given to the constructor.

## Model

| member | source | states |
|---|---|---|
| Values.IsStarted | downloadx/src/main/java/zlc/season/downloadx/core/DownloadTask.kt:27-29 | `isStarted` holds exactly for the states that have left `None` and are not end states |
| Values.CanStart | downloadx/src/main/java/zlc/season/downloadx/core/DownloadTask.kt:31-33 | `canStart` holds exactly when `isStarted` does not and the state is not `Succeed` |
| Values.StatePartition | downloadx/src/main/java/zlc/season/downloadx/core/DownloadTask.kt:27-33 | in every state exactly one of `canStart`, `isStarted` and `state == Succeed` holds |
| Values.CancelJob | downloadx/src/main/java/zlc/season/downloadx/core/DownloadTask.kt:92 | cancelling leaves no job active; it turns an active job into a cancelled one and leaves any other job as it was |
| Values.IsComplete | downloadx/src/main/java/zlc/season/downloadx/core/DownloadTask.kt:155-157 | a complete snapshot has a known positive total, so something was downloaded and it is not the zero snapshot; a snapshot without a positive total is never complete |
| Sampling.Sampled | downloadx/src/main/java/zlc/season/downloadx/core/DownloadTask.kt:100-111 | the sampling loop emits at most one snapshot per round; its first emission, if any, is the first round's reply taken in a non-end state |
| Tasks.AttemptLog | downloadx/src/main/java/zlc/season/downloadx/core/DownloadTask.kt:58-86 | one attempt publishes at most two states; it publishes nothing exactly when the request throws; otherwise it begins with `Started` for a response `Usable` accepts (successful and with a body, the test at line 60) and `Failed` for one it rejects |
| Tasks.TransferLog | downloadx/src/main/java/zlc/season/downloadx/core/DownloadTask.kt:76-82 | the end of the transfer publishes at most one state, always an end state, and none exactly when the transfer is cancelled |
| Tasks.AttemptLogShape | downloadx/src/main/java/zlc/season/downloadx/core/DownloadTask.kt:58-86 | one attempt publishes `Started` at most once and only first; `Started` iff the response passes the line-60 test (`Usable`); `Succeed` iff the response is usable and the transfer returns; `Failed` iff the response is unusable or the transfer errs; never `Stopped`, `Waiting` or `None`; after `Started`, a cancelled transfer publishes nothing more |
| Tasks.FilledName | downloadx/src/main/java/zlc/season/downloadx/core/DownloadTask.kt:64-66 | a non-empty save name is kept; an empty one becomes the response's file name |
| Tasks.FilledPath | downloadx/src/main/java/zlc/season/downloadx/core/DownloadTask.kt:67-69 | a non-empty save path is kept; an empty one becomes the default save path |
| Tasks.FilledNameOnce | downloadx/src/main/java/zlc/season/downloadx/core/DownloadTask.kt:64-66 | once filled with a non-empty name, a later response with any file name leaves the save name unchanged |
| Tasks.DownloadTask.constructor | downloadx/src/main/java/zlc/season/downloadx/core/DownloadTask.kt:14-25 | a new task is in `None`, with only `None` published, counter 0, no job, no collaborator and no open response |
| Tasks.DownloadTask.GetState | downloadx/src/main/java/zlc/season/downloadx/core/DownloadTask.kt:122 | `getState()` equals the state cell's value and the last published state |
| Tasks.DownloadTask.IsStarted | downloadx/src/main/java/zlc/season/downloadx/core/DownloadTask.kt:27-29 | `isStarted()` judged on the latest published state |
| Tasks.DownloadTask.CanStart | downloadx/src/main/java/zlc/season/downloadx/core/DownloadTask.kt:31-33 | `canStart()` holds exactly when the latest published state is neither started nor `Succeed` |
| Tasks.DownloadTask.Notify | downloadx/src/main/java/zlc/season/downloadx/core/DownloadTask.kt:124-153 | `notifyWaiting/Stopped/Failed/Succeed` set the current state and the state cell to the same variant, append it to the published record and change nothing else |
| Tasks.DownloadTask.NotifyStarted | downloadx/src/main/java/zlc/season/downloadx/core/DownloadTask.kt:130-135 | `notifyStarted` publishes `Started` and raises the started counter by exactly one |
| Tasks.DownloadTask.Start | downloadx/src/main/java/zlc/season/downloadx/core/DownloadTask.kt:35-45 | `start()` publishes `Waiting` in any state, then `Failed` if the enqueue throws; it ends in `Waiting` otherwise; job, parameters and counter are unchanged |
| Tasks.DownloadTask.Stop | downloadx/src/main/java/zlc/season/downloadx/core/DownloadTask.kt:91-94 | `stop()` always ends in `Stopped` with `Stopped` published; any active job becomes cancelled; a running attempt's response is closed once and nothing else is published |
| Tasks.DownloadTask.LaunchAttempt | downloadx/src/main/java/zlc/season/downloadx/core/DownloadTask.kt:53-73 | with an active job nothing changes; otherwise: a throwing request changes no state and closes nothing; an unusable response publishes only `Failed` and is closed once; a usable one fills the empty name and path, sets the collaborator and publishes `Started` |
| Tasks.DownloadTask.AwaitTransfer | downloadx/src/main/java/zlc/season/downloadx/core/DownloadTask.kt:75-86 | the transfer's end publishes `Succeed`, `Failed` or nothing (cancellation), and the response is closed exactly once; the job ends `Finished` only when the transfer returns, and `Cancelled` when it fails or is cancelled |
| Tasks.DownloadTask.SuspendStart | downloadx/src/main/java/zlc/season/downloadx/core/DownloadTask.kt:53-89 | with an active job nothing changes; otherwise the attempt publishes exactly `AttemptLog` of its outcomes, the counter rises by its `Started` count, only empty save fields are filled and only from a usable response, any response obtained is closed once, and the job ends `Finished` when the attempt's body returned with no failed child (unusable response, or completed transfer) and `Cancelled` otherwise |
| Tasks.DownloadTask.GetProgress | downloadx/src/main/java/zlc/season/downloadx/core/DownloadTask.kt:118-120 | `getProgress()` is the collaborator's snapshot, or the zero `Progress` when there is no collaborator |
| Tasks.DownloadTask.ProgressFlow | downloadx/src/main/java/zlc/season/downloadx/core/DownloadTask.kt:96-114 | `progress()` emits nothing while the started counter is 0, and otherwise exactly what `Sampled` gives for the observed rounds |
| Sampling.SampledIsPrefix | downloadx/src/main/java/zlc/season/downloadx/core/DownloadTask.kt:100-111 | the sampling loop emits a prefix of the reported snapshots, in order |
| Sampling.SampledOnlyWhileLive | downloadx/src/main/java/zlc/season/downloadx/core/DownloadTask.kt:101 | every emitted snapshot was taken while the state was not an end state |
| Sampling.SampledStopsAtComplete | downloadx/src/main/java/zlc/season/downloadx/core/DownloadTask.kt:106-108 | only the last emitted snapshot can be complete (`totalSize > 0 && downloadSize == totalSize`) |
| Sampling.SampledStopsForAReason | downloadx/src/main/java/zlc/season/downloadx/core/DownloadTask.kt:101-111 | when rounds remain, the loop stopped because the next round saw an end state or the last emitted snapshot was complete |
| Scenarios.TypicalDownload | downloadx/src/main/java/zlc/season/downloadx/core/DownloadTask.kt:35-114 | a queued, admitted, completed download publishes `None, Waiting, Started, Succeed`; its progress subscriber gets 0%, 50% and 100% of 1000 bytes and then stops |
| Scenarios.OverlappingAttempts | downloadx/src/main/java/zlc/season/downloadx/core/DownloadTask.kt:54-73 | a second attempt that begins while the first job is active does nothing: one `Started`, and the name comes from the first response |
| Scenarios.StopDuringTransfer | downloadx/src/main/java/zlc/season/downloadx/core/DownloadTask.kt:79-94 | a stop during the transfer publishes `Stopped`, never `Failed`, and closes the response once |
| Scenarios.RequestThrows | downloadx/src/main/java/zlc/season/downloadx/core/DownloadTask.kt:57-59 | a request that throws leaves the task `Waiting`, with nothing closed and no active job |
| Scenarios.SucceededTaskRunsAgain | downloadx/src/main/java/zlc/season/downloadx/core/DownloadTask.kt:53-57 | after `Succeed`, another `suspendStart` publishes `Started` again; the counter reaches 2 and the filled save name stays |

## Left out

- `Core.kt`: the lazily built HTTP client with fixed timeouts, the service
  factory and the streaming GET interface. This is network wiring, and the
  request's result is a parameter here.
- Coroutine mechanics are not modelled: `launch`, `async`, dispatchers, `join`,
  and how cancellation propagates. A job is a status value, and cancellation
  is one of the transfer's outcomes.
- `startNow()` only launches `suspendStart()` on the task's scope. It is not
  modelled apart from `SuspendStart`.
- The multicast behaviour of the state stream is not modelled. `published`
  records every write to the state cell in order. A real state-flow subscriber
  sees the latest value and may skip intermediate writes (conflation). The
  cell also drops a write equal to its current value, such as `stop()` on a
  task already `Stopped` or `start()` while `Waiting`: such a write is
  appended to `published` but reaches no subscriber. So "`Stopped`
  published" in the Stop row is a write to the cell, not necessarily
  something a subscriber observes.
- How `flatMapConcat` chains sampling loops is not modelled. It never
  interrupts a running loop: it starts the next loop only after the current
  one ends, and only for the latest counter value, since the counter is a
  state cell that drops intermediate values. `ProgressFlow` models one
  sampling loop for the current counter value.
- `progress()` itself never completes, because the counter's state cell never
  completes. Where the model says sampling "stops" (`ProgressFlow`,
  `TypicalDownload`), the sampling loop ends, not the subscription.
- The sampling interval and `delay` are not modelled. A subscriber detaching
  or its coroutine going inactive is the end of the given rounds.
- Logging (`log()`, `percentStr()`) has no effect on behaviour and is not
  modelled.
- Exceptions thrown by `response.fileName()` or by the dispatcher are not
  modelled. Such an exception would publish `Failed` without `Started` and
  close the response.
- An exception that ends the attempt's job is not propagated to the parent
  scope. This covers an exception from the request and a failed transfer.
  Such an exception cancels `coroutineScope` unless that scope is a
  supervisor scope; otherwise it goes to the scope's exception handler.
- `Progress` is defined outside the modelled file. Its sizes are unbounded
  integers here.
- Tasks.DownloadTask.NotifyStarted: the started counter is a 32-bit `Int` in
  the source. Its wrap-around after 2^31 increments is not modelled.
- Tasks.DownloadTask.AwaitTransfer: a failed transfer runs in an `async`
  child of the attempt's `launch`, so its failure cancels the attempt's job
  even though the catch block still publishes `Failed` and the `finally`
  still closes the response. The model records this only as the job ending
  `Cancelled`. What the escaping exception then does to the task's scope is
  not modelled.
- Tasks.DownloadTask.Stop: `LaunchAttempt`, `AwaitTransfer` and `Stop` are
  atomic steps. The source allows interleavings that these steps rule out,
  so the Stop row's "nothing else is published" holds only for them:
  - a new attempt launched after `stop()` but before the cancelled attempt
    has unwound, while the cancelled job is no longer active;
  - two `suspendStart` calls on a multi-threaded scope that both pass the
    `isActive` test before either assigns `downloadJob` (the field is a
    plain `var`, with no lock). Both then launch an attempt: `Started` is
    published twice, the counter rises by 2, the second dispatch overwrites
    the downloader, and the first job, no longer referenced, cannot be
    cancelled by `stop()`;
  - a `stop()` between `request(...)` returning and `notifyStarted()`, a
    stretch with no cancellation check: the source then publishes `Stopped`
    followed by `Started`. `await()` then throws a cancellation, so the
    attempt publishes nothing more. The task is left `Started`, with the
    counter raised and no job active;
  - a `stop()` between `await()` returning and `notifySucceed()`: the source
    then publishes `Stopped` followed by `Succeed`.
