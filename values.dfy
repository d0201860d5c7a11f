/** Value types a download task works with: its lifecycle state, progress
    snapshots, the status of its attempt job and the results its
    collaborators hand back (request, transfer). */
module Values {

  /** Lifecycle phase of one download task. */
  datatype State = None | Waiting | Started | Stopped | Failed | Succeed {

    /** `State.isEnd()` lives outside the modelled file; it is taken to hold
        exactly for the three states that end an attempt. */
    predicate IsEnd() {
      this == Stopped || this == Failed || this == Succeed
    }
  }

  /** `isStarted()`: the task is queued or transferring.  Equivalently: it has
      left the initial state and has not reached an end state. */
  function IsStarted(s: State): (r: bool)
    ensures r <==> s != None && !s.IsEnd()
  {
    s == Waiting || s == Started
  }

  /** `canStart()`: the task may be (re)started.  It never holds together
      with `IsStarted`, and the two together miss only `Succeed`. */
  function CanStart(s: State): (r: bool)
    ensures r <==> !IsStarted(s) && s != Succeed
  {
    s == None || s == Failed || s == Stopped
  }

  /** For every state exactly one of `CanStart`, `IsStarted` and
      `s == Succeed` holds. */
  lemma StatePartition(s: State)
    ensures CanStart(s) || IsStarted(s) || s == Succeed
    ensures !(CanStart(s) && IsStarted(s))
    ensures !(CanStart(s) && s == Succeed)
    ensures !(IsStarted(s) && s == Succeed)
  {
  }

  /** A progress snapshot: bytes written so far and total bytes expected. */
  datatype Progress = Progress(downloadSize: int, totalSize: int)

  /** The default `Progress()`: no measurement yet. */
  const ZeroProgress := Progress(0, 0)

  /** `Progress.isComplete()`: a known, non-zero total has been reached. */
  predicate IsComplete(p: Progress): (b: bool)
    ensures b ==> p.downloadSize > 0 && p != ZeroProgress
    ensures p.totalSize <= 0 ==> !b
  {
    p.totalSize > 0 && p.totalSize == p.downloadSize
  }

  /** Status of the attempt job (`downloadJob`).  `Active` is a job that is
      still running; a job that was cancelled, whose body threw, or one of
      whose child jobs failed, is `Cancelled`; one whose body returned with
      no failed child is `Finished`. */
  datatype Job = NoJob | Active | Cancelled | Finished

  /** `downloadJob?.cancel()`: an active job becomes cancelled; cancelling a
      missing, finished or already cancelled job changes nothing. */
  function CancelJob(j: Job): (r: Job)
    ensures r != Active
    ensures j != Active ==> r == j
    ensures j == Active ==> r == Cancelled
  {
    if j == Active then Cancelled else j
  }

  /** What the streaming request yields for the attempt: a response with the
      parts the task inspects (and the file name the response-name helper
      derives from it), or an exception thrown by the request itself. */
  datatype Response = Response(isSuccessful: bool, hasBody: bool, fileName: string)

  datatype RequestOutcome = Responded(response: Response) | RequestThrew

  /** A response the attempt accepts: successful and with a body. */
  predicate Usable(r: Response) {
    r.isSuccessful && r.hasBody
  }

  /** How the transfer collaborator's `download` ends: it returns, it throws
      an ordinary error, or the job is cancelled while awaiting it. */
  datatype TransferOutcome = Completed | TransferError | TransferCancelled
}
