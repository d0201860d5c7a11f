/** Client runs of a download task, each driven through the task's own
    methods with fixed collaborator results, and what they publish. */
module Scenarios {
  import opened Values
  import opened Sampling
  import opened Tasks

  /** A download that is queued, admitted and completes, while a progress
      subscriber samples three snapshots of a 1000-byte resource: the state
      cell sees `None, Waiting, Started, Succeed` and the subscriber receives
      0%, 50% and 100%, after which sampling stops. */
  method TypicalDownload() returns (states: seq<State>, emitted: seq<Progress>)
    ensures states == [None, Waiting, Started, Succeed]
    ensures emitted == [Progress(0, 1000), Progress(500, 1000), Progress(1000, 1000)]
  {
    var t := new DownloadTask("http://host/file", "", "", "/downloads");
    t.Start(false);
    var launched := t.LaunchAttempt(Responded(Response(true, true, "file")));
    var r0, r1, r2 := Sample(Started, Progress(0, 1000)), Sample(Started, Progress(500, 1000)),
                      Sample(Started, Progress(1000, 1000));
    var rounds := [r0, r1, r2, r2];
    emitted := t.ProgressFlow(rounds);
    assert rounds[1..] == [r1, r2, r2] && [r1, r2, r2][1..] == [r2, r2];
    assert Sampled([r2, r2]) == [r2.reply];
    t.AwaitTransfer(Completed);
    states := t.published;
  }

  /** A second attempt that begins while the first one's job is active does
      nothing: one `Started` is published, and the save name comes from the
      first response only. */
  method OverlappingAttempts() returns (second: bool, states: seq<State>, name: string)
    ensures !second
    ensures states == [None, Waiting, Started, Succeed]
    ensures name == "a.bin"
  {
    var t := new DownloadTask("http://host/a", "", "", "/downloads");
    t.Start(false);
    var first := t.LaunchAttempt(Responded(Response(true, true, "a.bin")));
    second := t.LaunchAttempt(Responded(Response(true, true, "b.bin")));
    t.AwaitTransfer(Completed);
    states, name := t.published, t.saveName;
  }

  /** Stopping during the transfer publishes `Stopped` and never `Failed`,
      and the response is closed once. */
  method StopDuringTransfer() returns (states: seq<State>, closes: nat, state: State)
    ensures states == [None, Waiting, Started, Stopped]
    ensures closes == 1 && state == Stopped
  {
    var t := new DownloadTask("http://host/a", "a.bin", "/data", "/downloads");
    t.Start(false);
    var launched := t.LaunchAttempt(Responded(Response(true, true, "a.bin")));
    t.Stop();
    states, closes := t.published, t.closeCount;
    state := t.GetState();
  }

  /** When the request itself throws, the attempt publishes nothing and has
      nothing to close: the task stays `Waiting`. */
  method RequestThrows() returns (states: seq<State>, closes: nat, active: bool)
    ensures states == [None, Waiting]
    ensures closes == 0 && !active
  {
    var t := new DownloadTask("http://host/a", "", "", "/downloads");
    t.Start(false);
    t.SuspendStart(RequestThrew, Completed);
    states, closes, active := t.published, t.closeCount, t.job == Active;
  }

  /** `suspendStart` does not consult `canStart`: after a success a second
      call runs a new attempt, publishing `Started` again, while the save
      name filled by the first attempt stays although the new response names
      another file. */
  method SucceededTaskRunsAgain() returns (states: seq<State>, starts: nat, name: string)
    ensures states == [None, Started, Succeed, Started, Succeed]
    ensures starts == 2 && name == "a.bin"
  {
    var t := new DownloadTask("http://host/a", "", "", "/downloads");
    t.SuspendStart(Responded(Response(true, true, "a.bin")), Completed);
    t.SuspendStart(Responded(Response(true, true, "b.bin")), Completed);
    assert StartedCount([Started, Succeed]) == 1 + StartedCount([Succeed]);
    states, starts, name := t.published, t.startedCounter, t.saveName;
  }
}
