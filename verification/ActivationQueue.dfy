/** The queue of workflow activations to be retried, as the manager keeps it. */
module ActivationQueue {
  import opened Arithmetic
  import opened RetrySchedule

  class ActivationQueue {
    var queuedActivations: map<WorkflowId, nat>
    /** All activation objects ever created; retry closures keep referring to theirs. */
    var activations: seq<Activation>
    var liveTimers: map<TimerId, Retry>
    var inFlight: map<TimerId, Retry>
    var nextTimer: TimerId

    ghost function State(): Schedule
      reads this
    {
      Schedule(queuedActivations, activations, liveTimers, inFlight, nextTimer)
    }

    ghost predicate Valid()
      reads this
    {
      Sane(State())
    }

    constructor ()
      ensures Valid() && State() == EMPTY
    {
      queuedActivations, activations, liveTimers, inFlight, nextTimer := map[], [], map[], map[], 0;
    }

    method SetTimeout(retry: Retry) returns (timer: TimerId)
      modifies this`liveTimers, this`nextTimer
      ensures timer == old(nextTimer) && nextTimer == old(nextTimer) + 1
      ensures liveTimers == old(liveTimers)[timer := retry]
    {
      timer := nextTimer;
      liveTimers := liveTimers[timer := retry];
      nextTimer := nextTimer + 1;
    }

    /** Queues a workflow afresh, dropping the entry and the timer it may already have. */
    method AddQueuedWorkflowActivation(workflowId: WorkflowId)
      requires Valid()
      modifies this
      ensures State() == After(old(State()), Enqueue(workflowId))
      ensures Valid()
    {
      RemoveQueuedWorkflowActivation(workflowId);
      ghost var dequeued := State();
      assert Sane(dequeued) && dequeued == Dequeued(old(State()), workflowId);
      var own := |activations|;
      var timer := SetTimeout(Retry(workflowId, own));
      activations := activations + [Activation(workflowId, INITIAL_TIMEOUT, timer, 0)];
      queuedActivations := queuedActivations[workflowId := own];
      assert State() == Enqueued(old(State()), workflowId);
    }

    method RemoveQueuedWorkflowActivation(workflowId: WorkflowId)
      requires Valid()
      modifies this`queuedActivations, this`liveTimers
      ensures Valid() && State() == After(old(State()), Remove(workflowId))
    {
      if workflowId in queuedActivations {
        liveTimers := liveTimers - {activations[queuedActivations[workflowId]].timer};
        queuedActivations := queuedActivations - {workflowId};
      }
    }

    /** Removes the entries one by one, in any order. */
    method RemoveAllQueuedWorkflowActivations()
      requires Valid()
      modifies this`queuedActivations, this`liveTimers
      ensures Valid() && State() == After(old(State()), RemoveAll)
    {
      var remaining := queuedActivations.Keys;
      ghost var removed: set<WorkflowId> := {};
      ghost var before := State();
      NothingRemoved(before);
      while remaining != {}
        invariant removed !! remaining && removed + remaining == before.queued.Keys
        invariant State() == WithoutWorkflows(before, removed)
        decreases remaining
      {
        var workflowId :| workflowId in remaining;
        RemovedOneByOne(before, removed, workflowId);
        RemoveQueuedWorkflowActivation(workflowId);
        remaining, removed := remaining - {workflowId}, removed + {workflowId};
      }
      assert removed == before.queued.Keys;
    }

    /** A timer fires: its retry is under way. */
    method FireTimer(timer: TimerId)
      requires Valid() && timer in liveTimers
      modifies this`liveTimers, this`inFlight
      ensures Valid() && State() == After(old(State()), Fire(timer))
    {
      inFlight := inFlight[timer := liveTimers[timer]];
      liveTimers := liveTimers - {timer};
    }

    /** The retry activated the workflow, which also clears the queue of it. */
    method RetrySucceeded(retry: TimerId)
      requires Valid() && retry in inFlight
      modifies this
      ensures Valid() && State() == After(old(State()), Succeed(retry))
    {
      var workflowId := inFlight[retry].workflow;
      inFlight := inFlight - {retry};
      RemoveQueuedWorkflowActivation(workflowId);
    }

    /** The retry was refused by policy: only its own entry leaves the queue. */
    method RetryRefused(retry: TimerId)
      requires Valid() && retry in inFlight
      modifies this
      ensures Valid() && State() == After(old(State()), Refuse(retry))
    {
      var closure := inFlight[retry];
      inFlight := inFlight - {retry};
      if closure.workflow in queuedActivations && queuedActivations[closure.workflow] == closure.own {
        RemoveQueuedWorkflowActivation(closure.workflow);
      }
    }

    /** The retry failed: it is rescheduled through whatever entry its workflow has now. */
    method RetryFailed(retry: TimerId, isolateError: bool)
      requires Valid() && retry in inFlight
      modifies this
      ensures Valid() && State() == After(old(State()), Fail(retry, isolateError))
    {
      var closure := inFlight[retry];
      inFlight := inFlight - {retry};
      if closure.workflow !in queuedActivations {
        return;
      }
      var i := queuedActivations[closure.workflow];
      var lastTimeout := activations[i].lastTimeout;
      if !isolateError && lastTimeout < MAX_TIMEOUT {
        lastTimeout := Min(lastTimeout * 2, MAX_TIMEOUT);
      }
      var timer := SetTimeout(closure);
      activations := activations[i := Activation(
        closure.workflow, lastTimeout, timer, activations[i].failures + if isolateError then 0 else 1)];
    }
  }
}
