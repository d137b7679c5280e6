/** The save coordinator of src/utils/saveCoordinator.ts: a single-flight
    state machine with a FIFO queue of pending save requests, a shared retry
    counter capped at three, and message-based classification of transient
    errors.

    Each `await` is one atomic step. `SaveRecord` is the synchronous part of
    a call to `saveRecord` (it either queues the request or starts it and
    stops at the first `await`); `Resume` is the continuation of the save in
    flight once the readiness check and the repository write have answered;
    `RunUntilIdle` feeds a sequence of answers to the save in flight and to
    the queued requests it starts, which is how `processQueue` services the
    queue. The back-off timers are no-ops. Callbacks are recorded as events. */
module SaveCoordination {
  import opened Types
  import opened Strings
  import opened DateRanges

  datatype SaveType = Auto | Manual

  /** The options of one `saveRecord` call; the three callbacks are the
      `Progress`, `Completed` and `Failed` events below. */
  datatype SaveRequest = SaveRequest(
    dateRange: string,
    data: seq<CrewMember>,
    crewInfo: CrewInfo,
    saveType: SaveType)

  /** What one attempt of the save in flight meets at its `await`s: the
      readiness check answers false, the readiness check throws, the
      repository write completes, or the repository write throws. */
  datatype Answer =
    | NotReady
    | CheckThrew(checkMessage: string)
    | Stored
    | StoreThrew(storeMessage: string)

  datatype Stage = Started | Completed

  /** What the coordinator does that a caller can observe. */
  datatype Event =
    | Progress(saveType: SaveType, stage: Stage)   // onProgress(`${saveType} save started...`/`completed`)
    | StoreCall(date1: string, date2: string)      // stableCTRService.saveRecord(date1, date2, ...)
    | Complete(completedRange: string)             // onComplete()
    | Error(failedRange: string, message: string)   // onError(error)

  const MaxRetries: nat := 3

  const NotReadyMessage: string := "Database is not ready"

  /** The error messages the coordinator retries (a message counts when it
      contains one of them). */
  predicate IsTransient(message: string)
  {
    Contains(message, "Database failed to initialize") ||
    Contains(message, NotReadyMessage) ||
    Contains(message, "Cannot read properties of undefined")
  }

  /** The message the attempt failed with, if it failed. */
  function FailureMessage(a: Answer): Option<string>
  {
    match a
    case NotReady => Some(NotReadyMessage)
    case CheckThrew(m) => Some(m)
    case Stored => None
    case StoreThrew(m) => Some(m)
  }

  /** The events of one attempt up to the point where it succeeds or
      throws: the repository is called only after a readiness check that
      answered true. */
  function AttemptEvents(r: SaveRequest, a: Answer): seq<Event>
  {
    var call := StoreCall(FirstDate(r.dateRange), SecondDate(r.dateRange));
    match a
    case NotReady => []
    case CheckThrew(_) => []
    case Stored => [call, Progress(r.saveType, Completed), Complete(r.dateRange)]
    case StoreThrew(_) => [call]
  }

  /** A failed attempt is retried exactly when its message is transient and
      the shared counter is below the cap. */
  predicate Retries(a: Answer, retryCount: nat)
  {
    FailureMessage(a).Some? && IsTransient(FailureMessage(a).value) && retryCount < MaxRetries
  }

  /** Every error other than the three transient ones is reported at once. */
  lemma PermanentErrorNotRetried(a: Answer, retryCount: nat)
    requires FailureMessage(a).Some? && !IsTransient(FailureMessage(a).value)
    ensures !Retries(a, retryCount)
  {
  }

  /** A readiness answer of false is always transient, so it is retried
      while the counter is below the cap, and the repository is not called
      for that attempt. */
  lemma NotReadyIsTransient(r: SaveRequest, retryCount: nat)
    ensures Retries(NotReady, retryCount) <==> retryCount < MaxRetries
    ensures forall e :: e in AttemptEvents(r, NotReady) ==> !e.StoreCall?
  {
    assert OccursAt(NotReadyMessage, NotReadyMessage, 0);
    ContainsOccurs(NotReadyMessage, NotReadyMessage);
  }

  // ---------------------------------------------------------------------
  // The readiness call as written

  /** The message of the TypeError the call `stableCTRService.isDatabaseReady()`
      raises as written: `StableCTRService` defines no such method. The text
      is `stableCTRService.isDatabaseReady is not a function`, written here
      around its only capital `D`. */
  const MissingReadinessMessage: string := "stableCTRService.is" + "D" + "atabaseReady is not a function"

  /** What every attempt meets as written: the readiness call throws before
      anything is awaited. */
  const AnswerAsWritten: Answer := CheckThrew(MissingReadinessMessage)

  lemma MissingReadinessLacks()
    ensures 'z' !in MissingReadinessMessage && 'p' !in MissingReadinessMessage
  {
    assert 'z' !in "stableCTRService.is" && 'z' !in "atabaseReady is not a function";
    assert 'p' !in "stableCTRService.is" && 'p' !in "atabaseReady is not a function";
  }

  lemma MissingReadinessNotInitFailure()
    ensures !Contains(MissingReadinessMessage, "Database failed to initialize")
  {
    MissingReadinessLacks();
    AbsentChar(MissingReadinessMessage, "Database failed to initialize", 27);
  }

  lemma MissingReadinessNotNotReady()
    ensures !Contains(MissingReadinessMessage, NotReadyMessage)
  {
    var tail := "atabaseReady is not a function";
    assert 'D' !in "stableCTRService.is" && 'D' !in tail && tail[7] == 'R';
    SingleHead("stableCTRService.is", 'D', tail, NotReadyMessage, 8);
  }

  lemma MissingReadinessNotUndefinedRead()
    ensures !Contains(MissingReadinessMessage, "Cannot read properties of undefined")
  {
    MissingReadinessLacks();
    AbsentChar(MissingReadinessMessage, "Cannot read properties of undefined", 12);
  }

  /** As written, the message of every attempt matches none of the transient
      patterns, so the attempt is never retried, never reaches the
      repository and fails with that message. */
  lemma EveryAttemptFailsAsWritten(r: SaveRequest, retryCount: nat)
    ensures !IsTransient(MissingReadinessMessage)
    ensures !Retries(AnswerAsWritten, retryCount)
    ensures AttemptEvents(r, AnswerAsWritten) == []
    ensures FailureMessage(AnswerAsWritten) == Some(MissingReadinessMessage)
  {
    MissingReadinessNotInitFailure();
    MissingReadinessNotNotReady();
    MissingReadinessNotUndefinedRead();
  }

  class SaveCoordinator {
    var saveInProgress: bool
    var currentSaveType: Option<SaveType>
    var saveQueue: seq<SaveRequest>
    var retryCount: nat
    /** The request whose `saveRecord` frame is suspended at an `await`. */
    var active: Option<SaveRequest>
    /** Callback invocations and repository calls, oldest first. */
    var events: seq<Event>
    /** Requests that have reached `onComplete` or `onError`, in order. */
    ghost var finished: seq<SaveRequest>
    /** Requests the coordinator has accepted and not discarded with
        `clearQueue`, in order of arrival. */
    ghost var accepted: seq<SaveRequest>

    /** The requests not yet finished: the one in flight, then the queue. */
    ghost function Pending(): seq<SaveRequest>
      reads this
    {
      (if active.Some? then [active.value] else []) + saveQueue
    }

    ghost predicate Valid()
      reads this
    {
      && retryCount <= MaxRetries
      && (saveInProgress <==> active.Some?)
      && currentSaveType == (if active.Some? then Some(active.value.saveType) else None)
      && (!saveInProgress ==> saveQueue == [])
      && accepted == finished + Pending()
    }

    constructor ()
      ensures Valid()
      ensures !saveInProgress && saveQueue == [] && retryCount == 0
      ensures events == [] && finished == [] && accepted == []
    {
      saveInProgress := false;
      currentSaveType := None;
      saveQueue := [];
      retryCount := 0;
      active := None;
      events := [];
      finished := [];
      accepted := [];
    }

    /** The synchronous part of `saveRecord(options)`: with a save in flight
        the request is only appended to the queue; otherwise it becomes the
        save in flight, reports that it started and waits on the store. */
    method SaveRecord(r: SaveRequest)
      requires Valid()
      modifies this
      ensures Valid()
      ensures Pending() == old(Pending()) + [r]
      ensures accepted == old(accepted) + [r] && finished == old(finished)
      ensures retryCount == old(retryCount)
      ensures old(saveInProgress) ==>
        saveQueue == old(saveQueue) + [r] && active == old(active) && events == old(events)
      ensures !old(saveInProgress) ==>
        active == Some(r) && events == old(events) + [Progress(r.saveType, Started)]
    {
      if saveInProgress {
        saveQueue := saveQueue + [r];
        accepted := accepted + [r];
        return;
      }
      if r.saveType == Auto && currentSaveType == Some(Manual) {
        return;
      }
      accepted := accepted + [r];
      Begin(r);
    }

    /** Sets both flags and reports the start; the request is now the one in
        flight. */
    method Begin(r: SaveRequest)
      requires !saveInProgress && active.None?
      modifies this
      ensures saveInProgress && currentSaveType == Some(r.saveType) && active == Some(r)
      ensures events == old(events) + [Progress(r.saveType, Started)]
      ensures saveQueue == old(saveQueue) && retryCount == old(retryCount)
      ensures finished == old(finished) && accepted == old(accepted)
    {
      saveInProgress := true;
      currentSaveType := Some(r.saveType);
      active := Some(r);
      events := events + [Progress(r.saveType, Started)];
    }

    /** The continuation of the save in flight after its attempt met
        `answer`. A success resets the shared counter; a transient failure
        under the cap increments it and restarts the same request; any other
        failure is reported with `onError`. When the request is done the
        flags are cleared and exactly one queued request, if any, starts. */
    method Resume(answer: Answer)
      requires Valid() && saveInProgress
      modifies this
      ensures Valid()
      ensures accepted == old(accepted)
      ensures answer.Stored? ==> retryCount == 0
      ensures !answer.Stored? && Retries(answer, old(retryCount)) ==>
        && retryCount == old(retryCount) + 1
        && Pending() == old(Pending()) && finished == old(finished)
        && events == old(events) + AttemptEvents(old(active.value), answer)
                     + [Progress(old(active.value).saveType, Started)]
      ensures !answer.Stored? && !Retries(answer, old(retryCount)) ==> retryCount == old(retryCount)
      ensures !Retries(answer, old(retryCount)) ==>
        && finished == old(finished) + [old(active.value)]
        && Pending() == old(Pending())[1..]
        && events == old(events) + AttemptEvents(old(active.value), answer)
                     + (if answer.Stored? then []
                        else [Error(old(active.value).dateRange, FailureMessage(answer).value)])
                     + (if old(saveQueue) == [] then []
                        else [Progress(old(saveQueue)[0].saveType, Started)])
    {
      var r := active.value;
      events := events + AttemptEvents(r, answer);
      if answer.Stored? {
        retryCount := 0;
        Finish();
        return;
      }
      var message := FailureMessage(answer).value;
      if IsTransient(message) && retryCount < MaxRetries {
        Retry();
        return;
      }
      events := events + [Error(r.dateRange, message)];
      Finish();
    }

    /** The retry branch of the `catch` block: counts the retry, clears the
        flags and starts the same request again. */
    method Retry()
      requires Valid() && saveInProgress && retryCount < MaxRetries
      modifies this
      ensures Valid() && Pending() == old(Pending())
      ensures finished == old(finished) && accepted == old(accepted)
      ensures retryCount == old(retryCount) + 1
      ensures events == old(events) + [Progress(old(active.value).saveType, Started)]
    {
      var r := active.value;
      retryCount := retryCount + 1;
      saveInProgress := false;
      currentSaveType := None;
      active := None;
      Begin(r);
      assert Pending() == [r] + saveQueue;
    }

    /** The `finally` block and `processQueue`: clears both flags, then
        starts the oldest queued request, if any. */
    method Finish()
      requires Valid() && saveInProgress
      modifies this
      ensures Valid() && Pending() == old(Pending())[1..]
      ensures finished == old(finished) + [old(active.value)] && accepted == old(accepted)
      ensures retryCount == old(retryCount)
      ensures old(saveQueue) == [] ==>
        !saveInProgress && active.None? && currentSaveType.None? && saveQueue == [] && events == old(events)
      ensures old(saveQueue) != [] ==>
        && saveInProgress && active == Some(old(saveQueue)[0])
        && currentSaveType == Some(old(saveQueue)[0].saveType)
        && saveQueue == old(saveQueue)[1..]
        && events == old(events) + [Progress(old(saveQueue)[0].saveType, Started)]
    {
      finished := finished + [active.value];
      saveInProgress := false;
      currentSaveType := None;
      active := None;
      if |saveQueue| > 0 {
        var next := saveQueue[0];
        saveQueue := saveQueue[1..];
        Begin(next);
        assert Pending() == [next] + saveQueue;
      }
      assert old(Pending()) == [old(active.value)] + old(saveQueue);
    }

    /** Services the save in flight and then the queue, one answer per
        attempt, until no save is in flight or the answers run out. Requests
        finish in the order they were accepted. */
    method RunUntilIdle(answers: seq<Answer>) returns (used: nat)
      requires Valid()
      modifies this
      ensures Valid()
      ensures used <= |answers|
      ensures saveInProgress ==> used == |answers|
      ensures accepted == old(accepted)
      ensures |old(finished)| <= |finished| && finished[..|old(finished)|] == old(finished)
      ensures finished + Pending() == old(finished) + old(Pending())
    {
      used := 0;
      while saveInProgress && used < |answers|
        invariant Valid()
        invariant used <= |answers|
        invariant accepted == old(accepted)
        invariant |old(finished)| <= |finished| && finished[..|old(finished)|] == old(finished)
        decreases |answers| - used
      {
        Resume(answers[used]);
        used := used + 1;
      }
    }

    function IsSaveInProgress(): bool
      reads this
    {
      saveInProgress
    }

    function GetCurrentSaveType(): Option<SaveType>
      reads this
    {
      currentSaveType
    }

    function GetQueueLength(): nat
      reads this
    {
      |saveQueue|
    }

    function GetRetryCount(): nat
      reads this
    {
      retryCount
    }

    /** `clearQueue`: drops every queued request; the save in flight is
        untouched. */
    method ClearQueue()
      requires Valid()
      modifies this
      ensures Valid()
      ensures saveQueue == [] && active == old(active) && saveInProgress == old(saveInProgress)
      ensures events == old(events) && retryCount == old(retryCount) && finished == old(finished)
    {
      saveQueue := [];
      accepted := finished + Pending();
    }

    method ResetRetryCount()
      requires Valid()
      modifies this
      ensures Valid()
      ensures retryCount == 0
      ensures saveQueue == old(saveQueue) && active == old(active) && events == old(events)
      ensures saveInProgress == old(saveInProgress) && accepted == old(accepted) && finished == old(finished)
    {
      retryCount := 0;
    }
  }

  /** In every reachable state the auto-save skip branch of `saveRecord`
      (an auto save arriving while a manual save is in flight) cannot fire:
      when no save is in progress there is no current save type. */
  lemma AutoSkipNeverFires(c: SaveCoordinator)
    requires c.Valid()
    ensures !c.saveInProgress ==> c.currentSaveType == None
    ensures c.saveInProgress <==> c.currentSaveType.Some?
  {
  }

  /** The unwinding of a retried save as the code is written. Every retry
      awaits a nested `saveRecord` frame and then `return`s through its own
      `finally`, so when the innermost attempt of a request retried k times
      settles, k + 1 `finally` blocks run one after another. Each clears the
      flag and, through `processQueue`, starts the oldest queued request,
      which sets the flag again and stops at its first `await`. */
  datatype Unwinding = Unwinding(inProgress: bool, started: seq<SaveRequest>, queue: seq<SaveRequest>)

  function FinallyAsWritten(u: Unwinding): (r: Unwinding)
    ensures u.queue == [] ==> r == Unwinding(false, u.started, [])
    ensures u.queue != [] ==> r == Unwinding(true, u.started + [u.queue[0]], u.queue[1..])
  {
    if u.queue == [] then Unwinding(false, u.started, [])
    else Unwinding(true, u.started + [u.queue[0]], u.queue[1..])
  }

  /** `frames` consecutive `finally` blocks, innermost first. */
  function UnwindAsWritten(frames: nat, u: Unwinding): (r: Unwinding)
    ensures |r.started| + |r.queue| == |u.started| + |u.queue|
    ensures |r.started| - |u.started| == (if frames < |u.queue| then frames else |u.queue|)
    ensures r.started == u.started + u.queue[..|r.started| - |u.started|]
    ensures frames > 0 ==> (r.inProgress <==> frames <= |u.queue|)
    decreases frames
  {
    if frames == 0 then u
    else
      var r := UnwindAsWritten(frames - 1, FinallyAsWritten(u));
      assert u.queue != [] ==> u.queue[1..][..|r.started| - |u.started| - 1] == u.queue[..|r.started| - |u.started|][1..];
      r
  }

  /** A save that succeeded on its first retry leaves two queued requests
      running at once: both are suspended at their own `await`, although the
      coordinator promises a single save in flight. */
  lemma RetryUnwindStartsTwoSaves(a: SaveRequest, b: SaveRequest)
    ensures UnwindAsWritten(2, Unwinding(true, [], [a, b])).started == [a, b]
    ensures UnwindAsWritten(2, Unwinding(true, [], [a, b])).inProgress
  {
  }

  /** With one queued request the same unwinding leaves that request in
      flight while the flag reads false, so the next `saveRecord` call starts
      a second save instead of queueing. */
  lemma RetryUnwindClearsFlagOfRunningSave(a: SaveRequest)
    ensures UnwindAsWritten(2, Unwinding(true, [], [a])) == Unwinding(false, [a], [])
  {
  }

  /** The unwinding as written starts one queued request per retry beyond
      the one the coordinator is meant to start: after a request that was
      retried at least once, more than one request leaves the queue whenever
      more than one was waiting. */
  lemma RetryUnwindOverDrains(retries: nat, queue: seq<SaveRequest>)
    requires retries >= 1 && |queue| >= 2
    ensures |UnwindAsWritten(retries + 1, Unwinding(true, [], queue)).started| >= 2
  {
  }

  /** A save started on an idle coordinator, as written: it reports that it
      started and then fails at once with the TypeError, without a store
      call and without a retry; the coordinator is idle again. */
  method SaveAsWritten(c: SaveCoordinator, r: SaveRequest)
    requires c.Valid() && !c.saveInProgress
    modifies c
    ensures c.Valid() && !c.saveInProgress && c.retryCount == old(c.retryCount)
    ensures c.events == old(c.events) + [Progress(r.saveType, Started), Error(r.dateRange, MissingReadinessMessage)]
    ensures c.finished == old(c.finished) + [r]
  {
    c.SaveRecord(r);
    assert c.saveQueue == [];
    EveryAttemptFailsAsWritten(r, c.retryCount);
    c.Resume(AnswerAsWritten);
  }
}
