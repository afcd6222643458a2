/**
 * The in-process task registry behind `POST /ready`, `GET /status` and the
 * shutdown hook (main.py:84-86, 89-91, 101-138, 163-170): the summary of the
 * last admitted task and the list of background job handles.
 */
module TaskRegistry {
  import opened Wrappers
  import opened TaskSummary

  /**
   * One entry of `background_tasks_list`: an asyncio task reduced to whether
   * it has finished (`done()`) and whether `cancel()` was called on it.
   */
  datatype Handle = Handle(done: bool, cancelRequested: bool)

  /** The handle `asyncio.create_task` returns: not started, so neither done nor cancelled. */
  const NewHandle: Handle := Handle(false, false)

  /** Reply to `POST /ready`: 200 with a message, or the 401 `HTTPException`. */
  datatype Admission = Accepted(message: string) | Rejected(statusCode: int, detail: string)

  const UnauthorizedCode: int := 401
  const SecretMismatch: string := "Unauthorized: Secret mismatch"

  /** Reply to `GET /status`. */
  datatype Status = Status(lastReceivedTask: Option<Summary>, runningBackgroundTasks: nat)

  /** `verify_secret`: exact string equality with the configured secret. */
  function VerifySecret(submitted: string, configured: string): (ok: bool)
    ensures ok <==> submitted == configured
  {
    submitted == configured
  }

  // ---------------------------------------------------------------------
  // Reaping: `[t for t in background_tasks_list if not t.done()]`
  // ---------------------------------------------------------------------

  /** The handles the status query keeps, in their original order. */
  function Live(s: seq<Handle>): (r: seq<Handle>)
    ensures |r| <= |s|
    ensures forall k :: 0 <= k < |r| ==> !r[k].done
  {
    if s == [] then []
    else
      var n := |s| - 1;
      Live(s[..n]) + (if s[n].done then [] else [s[n]])
  }

  /** Positions, in increasing order, of the handles that are not done. */
  ghost function LiveIndices(s: seq<Handle>): seq<nat> {
    if s == [] then []
    else
      var n := |s| - 1;
      LiveIndices(s[..n]) + (if s[n].done then [] else [n])
  }

  /** The positions of the handles that are not done, as a set. */
  ghost function RunningPositions(s: seq<Handle>): set<nat> {
    set j: nat | j < |s| && !s[j].done
  }

  /**
   * Reaping selects exactly the handles that are not done, in order: the
   * k-th kept handle is the one at the k-th position, the positions increase,
   * and a position is selected exactly when its handle is not done.
   */
  lemma {:induction false} LiveSelectsInOrder(s: seq<Handle>)
    ensures |LiveIndices(s)| == |Live(s)|
    ensures forall k :: 0 <= k < |Live(s)| ==> LiveIndices(s)[k] < |s| && Live(s)[k] == s[LiveIndices(s)[k]]
    ensures forall k, l :: 0 <= k < l < |LiveIndices(s)| ==> LiveIndices(s)[k] < LiveIndices(s)[l]
    ensures forall j :: 0 <= j < |s| ==> (j in LiveIndices(s) <==> !s[j].done)
  {
    if s != [] {
      var n := |s| - 1;
      var p := s[..n];
      LiveSelectsInOrder(p);
      assert forall j :: 0 <= j < n ==> p[j] == s[j];
      assert forall k :: 0 <= k < |LiveIndices(p)| ==> LiveIndices(p)[k] < n;
    }
  }

  /** The count reported after reaping is the number of handles that are not done. */
  lemma {:induction false} LiveCount(s: seq<Handle>)
    ensures |Live(s)| == |RunningPositions(s)|
  {
    if s != [] {
      var n := |s| - 1;
      LiveCount(s[..n]);
      assert RunningPositions(s) == RunningPositions(s[..n]) + (if s[n].done then {} else {n});
    }
  }

  /** A list of handles none of which is done is kept whole. */
  lemma {:induction false} LiveOfRunning(s: seq<Handle>)
    requires forall k :: 0 <= k < |s| ==> !s[k].done
    ensures Live(s) == s
  {
    if s != [] {
      var n := |s| - 1;
      LiveOfRunning(s[..n]);
      assert s[..n] + [s[n]] == s;
    }
  }

  /** Reaping twice gives the same list as reaping once. */
  lemma LiveIdempotent(s: seq<Handle>)
    ensures Live(Live(s)) == Live(s)
  {
    LiveOfRunning(Live(s));
  }

  /** Reaping leaves nothing exactly when every handle is done. */
  lemma {:induction false} LiveEmptyIffAllDone(s: seq<Handle>)
    ensures Live(s) == [] <==> forall j :: 0 <= j < |s| ==> s[j].done
  {
    LiveSelectsInOrder(s);
    if Live(s) != [] {
      var j := LiveIndices(s)[0];
      assert !s[j].done;
    }
  }

  /** A handle appended by an admission survives the next reap, after the earlier survivors. */
  lemma LiveAfterAdmission(s: seq<Handle>)
    ensures Live(s + [NewHandle]) == Live(s) + [NewHandle]
  {
  }

  /** Completing a running job lowers the reported count by one; completing a finished one changes nothing. */
  lemma CompleteLowersCount(s: seq<Handle>, i: nat)
    requires i < |s|
    ensures |Live(s[i := s[i].(done := true)])| == |Live(s)| - (if s[i].done then 0 else 1)
  {
    var t := s[i := s[i].(done := true)];
    LiveCount(s);
    LiveCount(t);
    assert RunningPositions(t) == RunningPositions(s) - {i};
  }

  // ---------------------------------------------------------------------
  // Shutdown: `for t in background_tasks_list: if not t.done(): t.cancel()`
  // ---------------------------------------------------------------------

  function Cancel(h: Handle): Handle {
    if h.done then h else h.(cancelRequested := true)
  }

  /**
   * The handle list after the shutdown loop: the same handles in the same
   * order, cancellation requested on every one that is not done, and a done
   * handle left exactly as it was.
   */
  function CancelLive(s: seq<Handle>): (r: seq<Handle>)
    ensures |r| == |s|
    ensures forall j :: 0 <= j < |s| ==> r[j].done == s[j].done
    ensures forall j :: 0 <= j < |s| ==> r[j].cancelRequested == (s[j].cancelRequested || !s[j].done)
    ensures forall j :: 0 <= j < |s| && s[j].done ==> r[j] == s[j]
  {
    seq(|s|, j requires 0 <= j < |s| => Cancel(s[j]))
  }

  /** A second shutdown pass changes nothing. */
  lemma CancelLiveIdempotent(s: seq<Handle>)
    ensures CancelLive(CancelLive(s)) == CancelLive(s)
  {
  }

  /**
   * Reaping after shutdown keeps the same handles as reaping before it would,
   * each now with cancellation requested.
   */
  lemma {:induction false} LiveAfterShutdown(s: seq<Handle>)
    ensures Live(CancelLive(s)) == CancelLive(Live(s))
    ensures forall k :: 0 <= k < |Live(CancelLive(s))| ==> Live(CancelLive(s))[k].cancelRequested
  {
    if s != [] {
      var n := |s| - 1;
      LiveAfterShutdown(s[..n]);
      assert CancelLive(s)[..n] == CancelLive(s[..n]);
      var tail := if s[n].done then [] else [s[n]];
      assert Live(s) == Live(s[..n]) + tail;
      assert CancelLive(Live(s[..n]) + tail) == CancelLive(Live(s[..n])) + CancelLive(tail);
    }
  }

  // ---------------------------------------------------------------------
  // The registry object
  // ---------------------------------------------------------------------

  /** The module-level globals `last_received_task` and `background_tasks_list`. */
  class Registry {
    var lastReceivedTask: Option<Summary>
    var backgroundTasks: seq<Handle>

    /** Process start: no task received and no background jobs. */
    constructor ()
      ensures lastReceivedTask == None && backgroundTasks == []
    {
      lastReceivedTask := None;
      backgroundTasks := [];
    }

    /**
     * `POST /ready`. A request whose secret is not the configured one is
     * rejected with 401 and changes nothing; any other request replaces the
     * summary and appends one new handle after the existing ones.
     */
    method ReceiveTask(req: TaskRequest, configuredSecret: string, isoNow: string) returns (resp: Admission)
      modifies this
      ensures req.secret == configuredSecret ==>
        && resp == Accepted("Task " + req.task + " received.")
        && lastReceivedTask == Some(Summarize(req, isoNow))
        && backgroundTasks == old(backgroundTasks) + [NewHandle]
      ensures req.secret != configuredSecret ==>
        && resp == Rejected(UnauthorizedCode, SecretMismatch)
        && lastReceivedTask == old(lastReceivedTask)
        && backgroundTasks == old(backgroundTasks)
    {
      if !VerifySecret(req.secret, configuredSecret) {
        return Rejected(UnauthorizedCode, SecretMismatch);
      }
      lastReceivedTask := Some(Summarize(req, isoNow));
      backgroundTasks := backgroundTasks + [NewHandle];
      resp := Accepted("Task " + req.task + " received.");
    }

    /** The event loop finishing (or cancelling out) the job behind handle `i`. */
    method CompleteJob(i: nat)
      requires i < |backgroundTasks|
      modifies this
      ensures backgroundTasks == old(backgroundTasks)[i := old(backgroundTasks)[i].(done := true)]
      ensures lastReceivedTask == old(lastReceivedTask)
    {
      backgroundTasks := backgroundTasks[i := backgroundTasks[i].(done := true)];
    }

    /**
     * `GET /status`: drop the finished handles, keeping the rest in order,
     * and report the summary and the number of handles left.
     */
    method GetStatus() returns (status: Status)
      modifies this
      ensures backgroundTasks == Live(old(backgroundTasks))
      ensures lastReceivedTask == old(lastReceivedTask)
      ensures status == Status(lastReceivedTask, |backgroundTasks|)
    {
      var kept: seq<Handle> := [];
      var i := 0;
      while i < |backgroundTasks|
        invariant 0 <= i <= |backgroundTasks|
        invariant kept == Live(backgroundTasks[..i])
      {
        assert backgroundTasks[..i + 1][..i] == backgroundTasks[..i];
        if !backgroundTasks[i].done {
          kept := kept + [backgroundTasks[i]];
        }
        i := i + 1;
      }
      assert backgroundTasks[..i] == backgroundTasks;
      backgroundTasks := kept;
      status := Status(lastReceivedTask, |backgroundTasks|);
    }

    /** The shutdown hook: request cancellation of every handle not yet done. */
    method Shutdown()
      modifies this
      ensures backgroundTasks == CancelLive(old(backgroundTasks))
      ensures lastReceivedTask == old(lastReceivedTask)
    {
      var i := 0;
      while i < |backgroundTasks|
        invariant 0 <= i <= |backgroundTasks| == |old(backgroundTasks)|
        invariant forall j :: 0 <= j < i ==> backgroundTasks[j] == Cancel(old(backgroundTasks)[j])
        invariant forall j :: i <= j < |backgroundTasks| ==> backgroundTasks[j] == old(backgroundTasks)[j]
        invariant lastReceivedTask == old(lastReceivedTask)
      {
        if !backgroundTasks[i].done {
          backgroundTasks := backgroundTasks[i := backgroundTasks[i].(cancelRequested := true)];
        }
        i := i + 1;
      }
    }
  }

  /** A rejected submission leaves the running count where it was. */
  method RejectedSubmissionScenario(req: TaskRequest)
    requires req.secret == "wrong"
  {
    var r := new Registry();
    var ok := TaskRequest("t", "e", 1, "b", "u", "n", "abc", []);
    var a := r.ReceiveTask(ok, "abc", "2024-01-01T00:00:00");
    assert a.Accepted?;
    var before := r.GetStatus();
    var b := r.ReceiveTask(req, "abc", "2024-01-01T00:00:01");
    assert b == Rejected(401, SecretMismatch);
    var after := r.GetStatus();
    LiveIdempotent([NewHandle]);
    assert after.runningBackgroundTasks == before.runningBackgroundTasks == 1;
  }

  /** Shutdown with three running jobs requests cancellation of all three. */
  method ShutdownScenario(req: TaskRequest)
    requires req.secret == "abc"
  {
    var r := new Registry();
    var a1 := r.ReceiveTask(req, "abc", "t1");
    var a2 := r.ReceiveTask(req, "abc", "t2");
    var a3 := r.ReceiveTask(req, "abc", "t3");
    assert r.backgroundTasks == [NewHandle, NewHandle, NewHandle];
    r.Shutdown();
    assert |r.backgroundTasks| == 3;
    assert forall j :: 0 <= j < 3 ==> r.backgroundTasks[j].cancelRequested;
  }
}
