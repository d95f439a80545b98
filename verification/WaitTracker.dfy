/** The wait tracker: timers for waiting executions, the retry loop, and the resume
    of a parent once its child has completed. */
module WaitTracker {
  import opened Arithmetic
  import opened Wrappers
  import opened ParentPatch
  import opened ResumeProtocol
  import opened ExecutionStore

  // ---- The retry loop ----

  /** How one call of an operation turns out. One that is reported as failed may still
      have taken effect. */
  datatype Attempt = Done | Failed(retryable: bool, effective: bool)

  /** Runs an operation, whose n-th call turns out as `operation(n)`, until it succeeds,
      fails for good, or has been tried often enough, sleeping in between. */
  method WithRetry(operation: nat -> Attempt, maxAttempts: int) returns (calls: nat, slept: nat, result: Attempt)
    ensures 1 <= calls && (calls <= maxAttempts || calls == 1)
    ensures result == operation(calls)
    ensures forall n :: 1 <= n < calls ==> operation(n).Failed? && operation(n).retryable
    ensures result.Failed? && result.retryable ==> maxAttempts <= calls
    ensures slept == 100 * (Pow2(calls - 1) - 1)
  {
    var attempt := 1;
    slept := 0;
    while true
      invariant 1 <= attempt && (attempt <= maxAttempts || attempt == 1)
      invariant forall n :: 1 <= n < attempt ==> operation(n).Failed? && operation(n).retryable
      invariant slept == 100 * (Pow2(attempt - 1) - 1)
      decreases maxAttempts - attempt
    {
      var outcome := operation(attempt);
      if outcome.Done? || attempt >= maxAttempts || !outcome.retryable {
        return attempt, slept, outcome;
      }
      slept := slept + 100 * Pow2(attempt - 1);
      attempt := attempt + 1;
    }
  }

  /** Some of the first `calls` calls took effect. */
  ghost predicate TookEffect(operation: nat -> Attempt, calls: nat) {
    exists n :: 1 <= n <= calls && (operation(n).Done? || operation(n).effective)
  }

  // ---- Timers and resumes ----

  type TimerId = nat

  /** A resumed execution may have a parent to be resumed once it completes. */
  datatype StartResult =
    | Resumed
    | AlreadyResuming
    | DoesNotExist
    | DidSucceed
    | NotSaved

  /** What starting an execution does to its row: a waiting one is taken over, provided its
      workflow is saved. */
  ghost function Started(row: ExecutionRow): ExecutionRow {
    if row.status.Waiting? && row.saved then row.(status := Running) else row
  }

  /** The resume of a parent that is due when its child completes. */
  datatype ParentResume = ParentResume(parentId: string, childId: string)

  /** Once the execution completes, its parent is resumed, unless a flag says not to. */
  function DueResume(row: ExecutionRow, id: string): seq<ParentResume> {
    match row.parent
    case Some(RelatedExecution(parentId, None)) => [ParentResume(parentId, id)]
    case Some(RelatedExecution(parentId, Some(true))) => [ParentResume(parentId, id)]
    case _ => []
  }

  class WaitTracker {
    const persistence: ExecutionPersistence

    var waitingExecutions: map<string, TimerId>
    /** The armed timers, each with the execution it starts. */
    var armed: map<TimerId, string>
    var nextTimer: TimerId
    /** Whether tracking was ever started; stopping it does not reset this. */
    var started: bool
    var parentResumes: seq<ParentResume>

    ghost predicate Valid()
      reads this
    {
      && (forall t :: t in armed ==> t < nextTimer)
      && (forall id :: id in waitingExecutions ==> waitingExecutions[id] < nextTimer)
      && (forall id :: id in waitingExecutions && waitingExecutions[id] in armed ==> armed[waitingExecutions[id]] == id)
    }

    /** Every tracked execution has an armed timer of its own. */
    ghost predicate AllArmed()
      reads this
    {
      forall id :: id in waitingExecutions ==> waitingExecutions[id] in armed
    }

    constructor (persistence: ExecutionPersistence)
      ensures Valid() && AllArmed() && fresh(this) && this.persistence == persistence
      ensures waitingExecutions == map[] && armed == map[] && !started && parentResumes == []
    {
      this.persistence := persistence;
      waitingExecutions, armed, nextTimer, started, parentResumes := map[], map[], 0, false, [];
    }

    /** Taking over as leader: polls at once. */
    method StartTracking(due: seq<string>)
      requires Valid()
      modifies this
      ensures Valid() && started
      ensures waitingExecutions.Keys == old(waitingExecutions).Keys + set id | id in due
      ensures forall id :: id in due ==>
                (waitingExecutions[id] in armed <==>
                 id !in old(waitingExecutions) || old(waitingExecutions)[id] in old(armed))
      ensures old(AllArmed()) ==> AllArmed()
    {
      started := true;
      GetWaitingExecutions(due);
    }

    /** One poll: arms a timer for every due execution that is not tracked yet. A due
        execution ends up with an armed timer exactly if it was untracked before or its
        timer was still armed; a stale entry keeps it from ever being armed. */
    method GetWaitingExecutions(due: seq<string>)
      requires Valid()
      modifies this
      ensures Valid() && started == old(started)
      ensures waitingExecutions.Keys == old(waitingExecutions).Keys + set id | id in due
      ensures forall id :: id in old(waitingExecutions) ==> waitingExecutions[id] == old(waitingExecutions)[id]
      ensures forall id :: id in due ==>
                (waitingExecutions[id] in armed <==>
                 id !in old(waitingExecutions) || old(waitingExecutions)[id] in old(armed))
      ensures old(AllArmed()) ==> AllArmed()
    {
      for i := 0 to |due|
        invariant Valid() && old(nextTimer) <= nextTimer && started == old(started)
        invariant waitingExecutions.Keys == old(waitingExecutions).Keys + set id | id in due[..i]
        invariant forall id :: id in old(waitingExecutions) ==> waitingExecutions[id] == old(waitingExecutions)[id]
        invariant forall t :: t < old(nextTimer) ==> (t in armed <==> t in old(armed))
        invariant forall id :: id in waitingExecutions && id !in old(waitingExecutions) ==> waitingExecutions[id] in armed
      {
        var executionId := due[i];
        if executionId !in waitingExecutions {
          waitingExecutions := waitingExecutions[executionId := nextTimer];
          armed := armed[nextTimer := executionId];
          nextTimer := nextTimer + 1;
        }
        assert due[..i + 1] == due[..i] + [executionId];
      }
      assert due[..|due|] == due;
    }

    /** Stops tracking one execution: its timer, if it has one, is disarmed. */
    method StopExecution(executionId: string)
      requires Valid()
      modifies this
      ensures Valid() && executionId !in waitingExecutions
      ensures waitingExecutions == old(waitingExecutions) - {executionId}
      ensures armed == if executionId in old(waitingExecutions)
                       then old(armed) - {old(waitingExecutions)[executionId]} else old(armed)
      ensures old(AllArmed()) ==> AllArmed()
    {
      if executionId !in waitingExecutions {
        return;
      }
      armed := armed - {waitingExecutions[executionId]};
      waitingExecutions := waitingExecutions - {executionId};
    }

    /** Stepping down as leader disarms the timers of all entries and keeps the entries, so
        that afterwards all tracked executions are armed only if none is tracked. No timer
        is left exactly if every armed one is still some entry's. */
    method StopTracking()
      requires Valid()
      modifies this
      ensures Valid() && waitingExecutions == old(waitingExecutions) && parentResumes == old(parentResumes)
      ensures started == old(started)
      ensures started ==> armed == old(armed) - waitingExecutions.Values
      ensures started ==> (AllArmed() <==> waitingExecutions == map[])
      ensures started ==>
                (armed == map[] <==>
                 forall t :: t in old(armed) ==> exists id :: id in waitingExecutions && waitingExecutions[id] == t)
      ensures !started ==> armed == old(armed)
    {
      if !started {
        return;
      }
      armed := armed - waitingExecutions.Values;
      assert waitingExecutions != map[] ==> exists id :: id in waitingExecutions;
      assert forall t :: t in old(armed) ==> (t in armed <==> t !in waitingExecutions.Values);
      assert armed == map[] <==> forall t :: t in old(armed) ==> t !in armed;
    }

    /** Reads a row, checks that it can be resumed and takes it over if it still waits. The
        entry is dropped, its timer is left armed. A parent that is to be resumed is
        remembered once, by whoever took its child over. */
    method StartExecution(executionId: string) returns (r: StartResult)
      requires Valid()
      modifies this, persistence
      ensures Valid() && (old(AllArmed()) ==> AllArmed())
      ensures waitingExecutions == old(waitingExecutions) - {executionId}
      ensures armed == old(armed) && started == old(started)
      ensures persistence.rows ==
              if executionId in old(persistence.rows)
              then old(persistence.rows)[executionId := Started(old(persistence.rows)[executionId])]
              else old(persistence.rows)
      ensures r == if executionId !in old(persistence.rows) then DoesNotExist
                   else var row := old(persistence.rows)[executionId];
                        if row.Finished() then DidSucceed
                        else if !row.saved then NotSaved
                        else if row.status.Waiting? then Resumed
                        else AlreadyResuming
      ensures parentResumes ==
              old(parentResumes) + if r.Resumed? then DueResume(old(persistence.rows)[executionId], executionId) else []
    {
      waitingExecutions := waitingExecutions - {executionId};
      var execution := persistence.FindSingleExecution(executionId);
      if execution.None? {
        return DoesNotExist;
      }
      if execution.value.Finished() {
        return DidSucceed;
      }
      if !execution.value.saved {
        return NotSaved;
      }
      var claimed := persistence.UpdateExistingExecution(
        executionId, Some(execution.value.data), Some(Running), Conditions(Some(Waiting), false, false));
      if !claimed.Updated? {
        return AlreadyResuming;
      }
      var parentExecution := execution.value.parent;
      if ShouldRestartParentExecution(parentExecution) {
        parentResumes := parentResumes + [ParentResume(parentExecution.value.executionId, executionId)];
      }
      return Resumed;
    }

    /** A timer fires: it is spent, and starts its execution. */
    method Fire(timer: TimerId) returns (r: StartResult)
      requires Valid() && timer in armed
      modifies this, persistence
      ensures Valid() && (old(AllArmed()) ==> AllArmed())
      ensures armed == old(armed) - {timer}
      ensures waitingExecutions == old(waitingExecutions) - {old(armed)[timer]}
      ensures persistence.rows ==
              var id := old(armed)[timer];
              if id in old(persistence.rows)
              then old(persistence.rows)[id := Started(old(persistence.rows)[id])]
              else old(persistence.rows)
      ensures r.Resumed? <==>
              && old(armed)[timer] in old(persistence.rows)
              && old(persistence.rows)[old(armed)[timer]].status.Waiting?
              && old(persistence.rows)[old(armed)[timer]].saved
      ensures parentResumes ==
              old(parentResumes) + if r.Resumed? then DueResume(old(persistence.rows)[old(armed)[timer]], old(armed)[timer]) else []
    {
      var executionId := armed[timer];
      armed := armed - {timer};
      waitingExecutions := waitingExecutions - {executionId};
      r := StartExecution(executionId);
    }

    /** Patches the parent, trying again after a failure that may be transient. */
    method PatchWithRetry(parentId: string, child: ChildRun, patch: nat -> Attempt) returns (ghost calls: nat, ok: bool)
      modifies persistence
      ensures 1 <= calls <= MAX_PARENT_RESUME_ATTEMPTS && (ok <==> patch(calls).Done?)
      ensures forall n :: 1 <= n < calls ==> patch(n).Failed? && patch(n).retryable
      ensures !ok && patch(calls).retryable ==> calls == MAX_PARENT_RESUME_ATTEMPTS
      ensures persistence.rows ==
              if parentId in old(persistence.rows) && TookEffect(patch, calls)
              then old(persistence.rows)[parentId := Patched(old(persistence.rows)[parentId], child)]
              else old(persistence.rows)
    {
      var attempt := 1;
      while true
        invariant 1 <= attempt <= MAX_PARENT_RESUME_ATTEMPTS
        invariant forall n :: 1 <= n < attempt ==> patch(n).Failed? && patch(n).retryable
        invariant persistence.rows ==
                  if parentId in old(persistence.rows) && TookEffect(patch, attempt - 1)
                  then old(persistence.rows)[parentId := Patched(old(persistence.rows)[parentId], child)]
                  else old(persistence.rows)
        decreases MAX_PARENT_RESUME_ATTEMPTS - attempt
      {
        var outcome := patch(attempt);
        if outcome.Done? || outcome.effective {
          if parentId in persistence.rows {
            PatchedIdempotent(old(persistence.rows)[parentId], child);
          }
          UpdateParentExecutionWithChildResults(persistence, parentId, child);
          assert TookEffect(patch, attempt);
        }
        if outcome.Done? || attempt >= MAX_PARENT_RESUME_ATTEMPTS || !outcome.retryable {
          return attempt, outcome.Done?;
        }
        attempt := attempt + 1;
      }
    }

    /** Starts the parent, trying again after a failure that may be transient; an execution
        that cannot be resumed at all is not tried again. */
    method StartWithRetry(parentId: string, start: nat -> Attempt) returns (ghost calls: nat, ok: bool)
      requires Valid()
      modifies this, persistence
      ensures Valid() && armed == old(armed) && started == old(started)
      ensures 1 <= calls <= MAX_PARENT_RESUME_ATTEMPTS && (ok ==> start(calls).Done?)
      ensures forall n :: 1 <= n < calls ==> start(n).Failed? && start(n).retryable
      ensures !ok && !start(calls).Done? && start(calls).retryable ==> calls == MAX_PARENT_RESUME_ATTEMPTS
      ensures start(calls).Done? ==>
                (ok <==> parentId in old(persistence.rows)
                         && !old(persistence.rows)[parentId].Finished() && old(persistence.rows)[parentId].saved)
      ensures persistence.rows ==
              if parentId in old(persistence.rows) && TookEffect(start, calls)
              then old(persistence.rows)[parentId := Started(old(persistence.rows)[parentId])]
              else old(persistence.rows)
    {
      var attempt := 1;
      while true
        invariant Valid() && armed == old(armed) && started == old(started)
        invariant 1 <= attempt <= MAX_PARENT_RESUME_ATTEMPTS
        invariant forall n :: 1 <= n < attempt ==> start(n).Failed? && start(n).retryable
        invariant persistence.rows ==
                  if parentId in old(persistence.rows) && TookEffect(start, attempt - 1)
                  then old(persistence.rows)[parentId := Started(old(persistence.rows)[parentId])]
                  else old(persistence.rows)
        decreases MAX_PARENT_RESUME_ATTEMPTS - attempt
      {
        var outcome := start(attempt);
        if outcome.Done? || outcome.effective {
          var r := StartExecution(parentId);
          assert TookEffect(start, attempt);
          if outcome.Done? {
            return attempt, r.Resumed? || r.AlreadyResuming?;
          }
        }
        if attempt >= MAX_PARENT_RESUME_ATTEMPTS || !outcome.retryable {
          return attempt, false;
        }
        attempt := attempt + 1;
      }
    }

    /** Once a child has completed, its results are embedded into the waiting parent and
        the parent is resumed, each with retries. A child that is itself waiting changes
        nothing. Failures never leave anything but the row as it was, the patched row, or
        the patched row taken over; and if each group has a call that succeeds after
        transient failures only, it is the last of these. */
    method ResumeParentExecution(
      parentId: string, results: Option<ChildRun>, childWaiting: bool, patch: nat -> Attempt, start: nat -> Attempt)
      requires Valid()
      modifies this, persistence
      ensures Valid() && armed == old(armed)
      ensures parentId !in old(persistence.rows) || results.None? || childWaiting ==>
                persistence.rows == old(persistence.rows)
      ensures parentId in old(persistence.rows) && results.Some? && !childWaiting ==>
                var row := old(persistence.rows)[parentId];
                var patched := Patched(row, results.value);
                && persistence.rows.Keys == old(persistence.rows).Keys
                && persistence.rows == old(persistence.rows)[parentId := persistence.rows[parentId]]
                && persistence.rows[parentId] in {row, patched, Started(patched)}
                && (SucceedsWithin(patch, MAX_PARENT_RESUME_ATTEMPTS) && SucceedsWithin(start, MAX_PARENT_RESUME_ATTEMPTS) ==>
                      persistence.rows[parentId] == Started(patched))
    {
      if results.None? {
        return;
      }
      if childWaiting {
        return;
      }
      ghost var patchCalls, startCalls;
      var ok;
      patchCalls, ok := PatchWithRetry(parentId, results.value, patch);
      SuccessStopsRetries(patch, patchCalls);
      if !ok {
        return;
      }
      assert TookEffect(patch, patchCalls);
      startCalls, ok := StartWithRetry(parentId, start);
      SuccessStopsRetries(start, startCalls);
    }
  }

  /** Some call within the limit succeeds and only transient failures come before it. */
  ghost predicate SucceedsWithin(operation: nat -> Attempt, limit: nat) {
    exists n :: 1 <= n <= limit && operation(n).Done? && forall m :: 1 <= m < n ==> operation(m).Failed? && operation(m).retryable
  }

  lemma SuccessStopsRetries(operation: nat -> Attempt, calls: nat)
    requires 1 <= calls <= MAX_PARENT_RESUME_ATTEMPTS
    requires forall n :: 1 <= n < calls ==> operation(n).Failed? && operation(n).retryable
    requires operation(calls).Failed? && operation(calls).retryable ==> calls == MAX_PARENT_RESUME_ATTEMPTS
    ensures SucceedsWithin(operation, MAX_PARENT_RESUME_ATTEMPTS) <==> operation(calls).Done?
    ensures operation(calls).Done? ==> TookEffect(operation, calls)
  {
  }

  /** An execution started by a webhook or a child while its timer is armed: stepping down
      does not reach that timer any more. */
  method StartedTimerSurvivesStepDown(tracker: WaitTracker, executionId: string)
    requires tracker.Valid() && tracker.started
    requires executionId in tracker.waitingExecutions && tracker.waitingExecutions[executionId] in tracker.armed
    modifies tracker, tracker.persistence
    ensures tracker.Valid() && old(tracker.waitingExecutions)[executionId] in tracker.armed
  {
    var _ := tracker.StartExecution(executionId);
    tracker.StopTracking();
  }

  /** Stepping down and taking over again: exactly what was tracked in the previous term
      is left without a timer, however often it is found due. */
  method NewTermLeavesTrackedUnarmed(tracker: WaitTracker, due: seq<string>)
    requires tracker.Valid() && tracker.started
    modifies tracker
    ensures forall id :: id in due ==>
              && id in tracker.waitingExecutions
              && (tracker.waitingExecutions[id] in tracker.armed <==> id !in old(tracker.waitingExecutions))
  {
    tracker.StopTracking();
    tracker.StartTracking(due);
  }
}
