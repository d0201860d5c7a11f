/** The per-download lifecycle state machine: one task, its current state and
    the state cell that mirrors it, the started counter that gates progress
    sampling, its attempt job, its transfer collaborator and the save name and
    path it fills in from the first usable response. */
module Tasks {
  import opened Values
  import opened Sampling

  /** How many times `Started` occurs in a sequence of published states. */
  function StartedCount(ts: seq<State>): nat {
    if ts == [] then 0
    else (if ts[0] == Started then 1 else 0) + StartedCount(ts[1..])
  }

  lemma {:induction false} StartedCountAppend(a: seq<State>, b: seq<State>)
    ensures StartedCount(a + b) == StartedCount(a) + StartedCount(b)
  {
    if a == [] {
      assert a + b == b;
    } else {
      assert (a + b)[1..] == a[1..] + b;
      StartedCountAppend(a[1..], b);
    }
  }

  /** The states one attempt publishes, given what its request and its
      transfer yield: nothing when the request itself throws; `Failed` alone
      for an unusable response; otherwise `Started`, then `Succeed` or
      `Failed` by the transfer's outcome, or nothing more when it is
      cancelled. */
  function AttemptLog(request: RequestOutcome, outcome: TransferOutcome): (log: seq<State>)
    ensures |log| <= 2
    ensures log == [] <==> request.RequestThrew?
    ensures log != [] ==> log[0] == (if Usable(request.response) then Started else Failed)
  {
    match request
    case RequestThrew => []
    case Responded(r) =>
      if !Usable(r) then [Failed]
      else [Started] + TransferLog(outcome)
  }

  /** The states published once the transfer has ended. */
  function TransferLog(outcome: TransferOutcome): (log: seq<State>)
    ensures |log| <= 1
    ensures log == [] <==> outcome == TransferCancelled
    ensures forall s :: s in log ==> s.IsEnd()
  {
    match outcome
    case Completed => [Succeed]
    case TransferError => [Failed]
    case TransferCancelled => []
  }

  /** What one attempt publishes: `Started` at most once and only first;
      `Succeed` exactly when the response was usable and the transfer
      completed; `Failed` exactly on an unusable response or a transfer
      error; never `Stopped`, `Waiting` or `None`; and a transfer cancelled
      after `Started` publishes no end state. */
  lemma AttemptLogShape(request: RequestOutcome, outcome: TransferOutcome)
    ensures StartedCount(AttemptLog(request, outcome)) <= 1
    ensures forall i :: 0 < i < |AttemptLog(request, outcome)| ==> AttemptLog(request, outcome)[i] != Started
    ensures Started in AttemptLog(request, outcome) <==> request.Responded? && Usable(request.response)
    ensures Succeed in AttemptLog(request, outcome) <==>
      request.Responded? && Usable(request.response) && outcome == Completed
    ensures Failed in AttemptLog(request, outcome) <==>
      request.Responded? && (!Usable(request.response) || outcome == TransferError)
    ensures Stopped !in AttemptLog(request, outcome) && Waiting !in AttemptLog(request, outcome)
    ensures None !in AttemptLog(request, outcome)
    ensures request.Responded? && Usable(request.response) && outcome == TransferCancelled ==>
      AttemptLog(request, outcome) == [Started]
  {
    match request
    case RequestThrew =>
    case Responded(r) =>
      if Usable(r) {
        StartedCountAppend([Started], TransferLog(outcome));
        assert StartedCount(TransferLog(outcome)) == 0 by {
          match outcome
          case Completed => assert StartedCount([Succeed]) == StartedCount([]);
          case TransferError => assert StartedCount([Failed]) == StartedCount([]);
          case TransferCancelled =>
        }
      } else {
        assert StartedCount([Failed]) == StartedCount([]);
      }
  }

  /** The save name after an attempt has filled it from response `r`: an
      empty name becomes the response's file name, a non-empty one stays. */
  function FilledName(saveName: string, r: Response): (n: string)
    ensures saveName != [] ==> n == saveName
    ensures saveName == [] ==> n == r.fileName
  {
    if saveName == [] then r.fileName else saveName
  }

  /** A save name is filled at most once: after an attempt has filled it
      with a non-empty name, a later response, whatever its file name, leaves
      it as it is. */
  lemma FilledNameOnce(saveName: string, first: Response, later: Response)
    requires saveName != [] || first.fileName != []
    ensures FilledName(FilledName(saveName, first), later) == FilledName(saveName, first)
  {
  }

  /** The save path after an attempt: an empty path becomes the default
      save path, a non-empty one stays. */
  function FilledPath(savePath: string, defaultPath: string): (p: string)
    ensures savePath != [] ==> p == savePath
    ensures savePath == [] ==> p == defaultPath
  {
    if savePath == [] then defaultPath else savePath
  }

  class DownloadTask {
    /** `param.url`: the resource this task downloads; never changed. */
    const url: string
    /** `Default.DEFAULT_SAVE_PATH`, used when the save path is empty. */
    const defaultSavePath: string
    /** `param.saveName` and `param.savePath`. */
    var saveName: string
    var savePath: string

    /** `currentState`, and the value held by the state cell
        (`downloadStateFlow.value`). */
    var currentState: State
    var publishedState: State
    /** Every value written to the state cell, oldest first: the order in
        which subscribers observe the transitions. */
    var published: seq<State>
    /** `downloadProgressFlow.value`: how many times `Started` was published. */
    var startedCounter: nat

    /** Whether `downloader` is set. */
    var hasDownloader: bool
    /** `downloadJob`. */
    var job: Job
    /** Whether the current attempt holds a response it has not yet closed,
        and how many times the most recent response was closed (an attempt
        whose request throws obtains no response and leaves it as it was). */
    var responseOpen: bool
    var closeCount: nat

    ghost predicate Valid()
      reads this
    {
      published != [] && published[0] == None &&
      publishedState == published[|published| - 1] &&
      currentState == publishedState &&
      startedCounter == StartedCount(published) &&
      (startedCounter > 0 ==> hasDownloader) &&
      (responseOpen <==> job == Active) &&
      (responseOpen ==> hasDownloader && closeCount == 0)
    }

    constructor (url: string, saveName: string, savePath: string, defaultSavePath: string)
      ensures Valid()
      ensures this.url == url && this.defaultSavePath == defaultSavePath
      ensures this.saveName == saveName && this.savePath == savePath
      ensures currentState == None && published == [None] && startedCounter == 0
      ensures !hasDownloader && job == NoJob && !responseOpen && closeCount == 0
    {
      this.url := url;
      this.defaultSavePath := defaultSavePath;
      this.saveName := saveName;
      this.savePath := savePath;
      currentState := None;
      publishedState := None;
      published := [None];
      startedCounter := 0;
      hasDownloader := false;
      job := NoJob;
      responseOpen := false;
      closeCount := 0;
    }

    /** `getState()`: always the latest value of the state cell. */
    method GetState() returns (s: State)
      requires Valid()
      ensures s == currentState && s == publishedState
      ensures s == published[|published| - 1]
    {
      s := currentState;
    }

    /** `isStarted()` on the current state. */
    method IsStarted() returns (b: bool)
      requires Valid()
      ensures b <==> Values.IsStarted(published[|published| - 1])
    {
      b := Values.IsStarted(currentState);
    }

    /** `canStart()` on the current state. */
    method CanStart() returns (b: bool)
      requires Valid()
      ensures b <==> !Values.IsStarted(published[|published| - 1]) && published[|published| - 1] != Succeed
    {
      b := Values.CanStart(currentState);
    }

    /** Publishes `s`: sets the current state and writes the state cell. */
    method Notify(s: State)
      requires Valid()
      requires s != Started && s != None
      modifies this
      ensures Valid()
      ensures currentState == s && publishedState == s
      ensures published == old(published) + [s]
      ensures startedCounter == old(startedCounter)
      ensures saveName == old(saveName) && savePath == old(savePath)
      ensures hasDownloader == old(hasDownloader) && job == old(job)
      ensures responseOpen == old(responseOpen) && closeCount == old(closeCount)
    {
      StartedCountAppend(published, [s]);
      currentState := s;
      publishedState := s;
      published := published + [s];
    }

    /** `notifyStarted()`: publishes `Started` and bumps the started counter. */
    method NotifyStarted()
      requires Valid()
      requires hasDownloader
      modifies this
      ensures Valid()
      ensures currentState == Started && publishedState == Started
      ensures published == old(published) + [Started]
      ensures startedCounter == old(startedCounter) + 1
      ensures saveName == old(saveName) && savePath == old(savePath)
      ensures hasDownloader == old(hasDownloader) && job == old(job)
      ensures responseOpen == old(responseOpen) && closeCount == old(closeCount)
    {
      StartedCountAppend(published, [Started]);
      currentState := Started;
      publishedState := Started;
      published := published + [Started];
      startedCounter := startedCounter + 1;
    }

    /** `start()`: publishes `Waiting` whatever the current state, then hands
        the task to the queue; when the queue throws, publishes `Failed`. */
    method Start(enqueueThrows: bool)
      requires Valid()
      modifies this
      ensures Valid()
      ensures published == old(published) + [Waiting] + (if enqueueThrows then [Failed] else [])
      ensures currentState == (if enqueueThrows then Failed else Waiting)
      ensures startedCounter == old(startedCounter)
      ensures saveName == old(saveName) && savePath == old(savePath)
      ensures hasDownloader == old(hasDownloader) && job == old(job)
      ensures responseOpen == old(responseOpen) && closeCount == old(closeCount)
    {
      Notify(Waiting);
      if enqueueThrows {
        Notify(Failed);
      }
    }

    /** `stop()`: cancels the job and publishes `Stopped`, whether or not an
        attempt was running.  A running attempt then unwinds: it sees the
        cancellation, publishes nothing and closes its response. */
    method Stop()
      requires Valid()
      modifies this
      ensures Valid()
      ensures currentState == Stopped
      ensures published == old(published) + [Stopped]
      ensures job == CancelJob(old(job)) && !responseOpen
      ensures closeCount == if old(responseOpen) then 1 else old(closeCount)
      ensures startedCounter == old(startedCounter)
      ensures saveName == old(saveName) && savePath == old(savePath)
      ensures hasDownloader == old(hasDownloader)
    {
      Notify(Stopped);
      if responseOpen {
        responseOpen := false;
        closeCount := closeCount + 1;
      }
      job := CancelJob(job);
    }

    /** The attempt up to the transfer.  When a job is active, nothing
        happens and `launched` is false.  Otherwise the stale job is
        cancelled and a new one runs the attempt: the request, the response
        checks, filling the save name and path, dispatching the transfer
        collaborator and publishing `Started`.  When that completes, the job
        is left active, awaiting the transfer, with its response open. */
    method LaunchAttempt(request: RequestOutcome) returns (launched: bool)
      requires Valid()
      modifies this
      ensures Valid()
      ensures launched <==> old(job) != Active
      ensures !launched ==>
        published == old(published) && startedCounter == old(startedCounter) &&
        saveName == old(saveName) && savePath == old(savePath) &&
        hasDownloader == old(hasDownloader) && job == old(job) &&
        responseOpen == old(responseOpen) && closeCount == old(closeCount)
      ensures launched && request.RequestThrew? ==>
        published == old(published) && startedCounter == old(startedCounter) &&
        job == Cancelled && !responseOpen &&
        closeCount == old(closeCount) &&
        saveName == old(saveName) && savePath == old(savePath) &&
        hasDownloader == old(hasDownloader)
      ensures launched && request.Responded? && !Usable(request.response) ==>
        published == old(published) + [Failed] && startedCounter == old(startedCounter) &&
        job == Finished && !responseOpen &&
        closeCount == 1 &&
        saveName == old(saveName) && savePath == old(savePath) &&
        hasDownloader == old(hasDownloader)
      ensures launched && request.Responded? && Usable(request.response) ==>
        published == old(published) + [Started] && startedCounter == old(startedCounter) + 1 &&
        job == Active && responseOpen &&
        saveName == FilledName(old(saveName), request.response) &&
        savePath == FilledPath(old(savePath), defaultSavePath) &&
        hasDownloader
      ensures currentState == published[|published| - 1]
    {
      if job == Active {
        return false;
      }
      launched := true;
      job := CancelJob(job);
      // The new job runs the attempt below.
      match request
      case RequestThrew =>
        // The request sits outside the attempt's try: the exception ends the
        // job without a state change and with no response to close.
        job := Cancelled;
      case Responded(r) =>
        closeCount := 0;
        if !Usable(r) {
          Notify(Failed);
          // The attempt's finally block closes the response.
          closeCount := closeCount + 1;
          job := Finished;
        } else {
          if saveName == [] {
            saveName := r.fileName;
          }
          if savePath == [] {
            savePath := defaultSavePath;
          }
          hasDownloader := true;
          job, responseOpen := Active, true;
          NotifyStarted();
        }
    }

    /** The rest of the attempt, once the transfer ends: `Succeed` when it
        returns, `Failed` on an ordinary error, nothing when the job is
        cancelled; in every case the response is closed, once. */
    method AwaitTransfer(outcome: TransferOutcome)
      requires Valid()
      requires responseOpen
      modifies this
      ensures Valid()
      ensures published == old(published) + TransferLog(outcome)
      ensures !responseOpen && closeCount == 1
      ensures job == (if outcome == Completed then Finished else Cancelled)
      ensures startedCounter == old(startedCounter)
      ensures saveName == old(saveName) && savePath == old(savePath)
      ensures hasDownloader == old(hasDownloader)
    {
      if outcome == Completed {
        Notify(Succeed);
      } else if outcome == TransferError {
        Notify(Failed);
      }
      responseOpen := false;
      closeCount := closeCount + 1;
      // A failed transfer is a failed child job: it cancels the attempt's
      // job even though the attempt catches the error.
      job := if outcome == Completed then Finished else Cancelled;
    }

    /** `suspendStart()`: the whole attempt.  With a job already active it
        changes nothing.  Otherwise it publishes exactly `AttemptLog` of what
        its request and transfer yield, fills the empty save name and path
        from a usable response, and closes any response it obtained exactly
        once; no job is left active. */
    method SuspendStart(request: RequestOutcome, outcome: TransferOutcome)
      requires Valid()
      modifies this
      ensures Valid()
      ensures old(job) == Active ==>
        published == old(published) && startedCounter == old(startedCounter) &&
        saveName == old(saveName) && savePath == old(savePath) &&
        hasDownloader == old(hasDownloader) && job == old(job) &&
        responseOpen == old(responseOpen) && closeCount == old(closeCount)
      ensures old(job) != Active ==>
        published == old(published) + AttemptLog(request, outcome) &&
        startedCounter == old(startedCounter) + StartedCount(AttemptLog(request, outcome)) &&
        job == (if request.Responded? && (!Usable(request.response) || outcome == Completed)
                then Finished else Cancelled) &&
        !responseOpen &&
        (request.Responded? ==> closeCount == 1) &&
        (request.RequestThrew? ==> closeCount == old(closeCount))
      ensures old(job) != Active && request.Responded? && Usable(request.response) ==>
        saveName == FilledName(old(saveName), request.response) &&
        savePath == FilledPath(old(savePath), defaultSavePath) &&
        hasDownloader
      ensures !(old(job) != Active && request.Responded? && Usable(request.response)) ==>
        saveName == old(saveName) && savePath == old(savePath) &&
        hasDownloader == old(hasDownloader)
    {
      var launched := LaunchAttempt(request);
      if launched && responseOpen {
        AwaitTransfer(outcome);
      }
      StartedCountAppend(old(published), AttemptLog(request, outcome));
    }

    /** `getProgress()`: the transfer collaborator's snapshot `reply`, or the
        zero snapshot when there is no collaborator. */
    method GetProgress(reply: Progress) returns (p: Progress)
      ensures hasDownloader ==> p == reply
      ensures !hasDownloader ==> p == ZeroProgress
    {
      if hasDownloader {
        p := reply;
      } else {
        p := ZeroProgress;
      }
    }

    /** `progress()`: nothing while `Started` has never been published;
        otherwise the sampling loop over the given rounds. */
    method ProgressFlow(samples: seq<Sample>) returns (emitted: seq<Progress>)
      requires Valid()
      ensures startedCounter == 0 ==> emitted == []
      ensures startedCounter > 0 ==> emitted == Sampled(samples)
    {
      emitted := [];
      if startedCounter == 0 {
        return;
      }
      var i := 0;
      while i < |samples| && !samples[i].state.IsEnd()
        invariant 0 <= i <= |samples|
        invariant Sampled(samples) == emitted + Sampled(samples[i..])
      {
        assert samples[i..][1..] == samples[i + 1..];
        var p := GetProgress(samples[i].reply);
        assert p == samples[i].reply;
        emitted := emitted + [p];
        if IsComplete(p) {
          assert Sampled(samples[i..]) == [p];
          break;
        }
        assert Sampled(samples[i..]) == [p] + Sampled(samples[i + 1..]);
        i := i + 1;
      }
    }
  }
}
