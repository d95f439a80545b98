/** The registry of executions active in this process. Every method is one synchronous
    segment of the code: `add` is split where it awaits. */
module ActiveExecutions {
  import opened ResumeProtocol
  import opened CapacityProtocol

  class ActiveExecutions {
    var activeExecutions: map<ExecId, nat>
    /** All entry objects ever created; closures keep referring to them by position. */
    var entries: seq<Entry>
    var pendingAdds: map<AddId, Pending>
    var slotsTaken: int
    ghost var failedAdds: seq<Reservation>

    ghost function State(): Registry
      reads this
    {
      Registry(activeExecutions, entries, pendingAdds, failedAdds, slotsTaken)
    }

    ghost predicate Valid()
      reads this
    {
      Accounted(State())
    }

    constructor ()
      ensures Valid() && State() == EMPTY
    {
      activeExecutions, entries, pendingAdds, slotsTaken := map[], [], map[], 0;
      failedAdds := [];
      new;
      assert HeldEntries(EMPTY) == {} && HeldPending(EMPTY) == {};
    }

    predicate Has(executionId: ExecId)
      reads this
    {
      executionId in activeExecutions
    }

    /** `add`, up to waiting for capacity. */
    method BeginAdd(add: AddId, executionId: ExecId, evaluation: bool)
      requires Valid() && add !in pendingAdds
      modifies this
      ensures Valid() && State() == After(old(State()), CapacityProtocol.BeginAdd(add, executionId, evaluation))
    {
      EventKeepsAccounts(State(), CapacityProtocol.BeginAdd(add, executionId, evaluation));
      pendingAdds := pendingAdds[add := Pending(executionId, evaluation, FRESH)];
    }

    /** Capacity was granted; evaluation runs do not reserve any. */
    method Reserve(add: AddId)
      requires Valid() && add in pendingAdds && pendingAdds[add].reservation == FRESH
      modifies this
      ensures Valid() && State() == After(old(State()), CapacityProtocol.Reserve(add))
    {
      EventKeepsAccounts(State(), CapacityProtocol.Reserve(add));
      if !pendingAdds[add].evaluation {
        slotsTaken := slotsTaken + 1;
        pendingAdds := pendingAdds[add := pendingAdds[add].(reservation := Reservation(true, 0))];
      }
    }

    /** The row could not be created or claimed: capacity goes back, nothing is registered. */
    method FailAdd(add: AddId)
      requires Valid() && add in pendingAdds
      modifies this
      ensures Valid() && State() == After(old(State()), CapacityProtocol.FailAdd(add))
    {
      EventKeepsAccounts(State(), CapacityProtocol.FailAdd(add));
      if pendingAdds[add].reservation.acquired {
        slotsTaken := slotsTaken - 1;
      }
      failedAdds := failedAdds + [Released(pendingAdds[add].reservation)];
      pendingAdds := pendingAdds - {add};
    }

    /** The row is ours: a new entry replaces whatever was registered under the id. */
    method Register(add: AddId)
      requires Valid() && add in pendingAdds
      modifies this
      ensures Valid() && State() == After(old(State()), CapacityProtocol.Register(add))
    {
      EventKeepsAccounts(State(), CapacityProtocol.Register(add));
      var p := pendingAdds[add];
      pendingAdds := pendingAdds - {add};
      activeExecutions := activeExecutions[p.exec := |entries|];
      entries := entries + [Entry(p.exec, Running, false, false, false, p.reservation)];
    }

    /** The handler that runs once the post-execution promise of `entry` has settled. It
        releases that entry's reservation and removes whatever its id is registered as. */
    method OnSettled(entry: nat)
      requires Valid() && entry < |entries| && entries[entry].settled && !entries[entry].handled
      modifies this
      ensures Valid() && State() == After(old(State()), Settle(entry))
      ensures !entries[entry].reservation.acquired
      ensures slotsTaken == old(slotsTaken) - (if old(entries)[entry].reservation.acquired then 1 else 0)
      ensures Has(entries[entry].exec) <==> old(entries)[entry].status.Waiting? && old(Has(entries[entry].exec))
    {
      EventKeepsAccounts(State(), Settle(entry));
      var execution := entries[entry];
      if execution.reservation.acquired {
        slotsTaken := slotsTaken - 1;
        execution := execution.(reservation := Released(execution.reservation));
      }
      if execution.status.Waiting? {
        execution := execution.(attached := false);
      } else {
        activeExecutions := activeExecutions - {execution.exec};
      }
      entries := entries[entry := execution.(handled := true)];
    }

    method AttachWorkflowExecution(executionId: ExecId) returns (found: bool)
      requires Valid()
      modifies this
      ensures Valid() && State() == After(old(State()), Attach(executionId))
      ensures found ==> Has(executionId) && entries[activeExecutions[executionId]].attached
      ensures found == old(Has(executionId))
    {
      EventKeepsAccounts(State(), Attach(executionId));
      if executionId !in activeExecutions {
        return false;
      }
      var i := activeExecutions[executionId];
      entries := entries[i := entries[i].(attached := true)];
      return true;
    }

    /** Cancels an execution. A waiting one is only removed, its promise is left alone. */
    method StopExecution(executionId: ExecId)
      requires Valid()
      modifies this
      ensures Valid() && State() == After(old(State()), Stop(executionId))
      ensures old(Has(executionId)) ==>
                var i := old(activeExecutions)[executionId];
                if old(entries)[i].status.Waiting? then !Has(executionId) && entries == old(entries)
                else Has(executionId) && entries[i].settled
    {
      EventKeepsAccounts(State(), Stop(executionId));
      if executionId !in activeExecutions {
        return;
      }
      var i := activeExecutions[executionId];
      if entries[i].status.Waiting? {
        activeExecutions := activeExecutions - {executionId};
      } else {
        entries := entries[i := entries[i].(settled := true)];
      }
    }

    /** Settles the promise of whatever is registered under the id, if anything is. */
    method FinalizeExecution(executionId: ExecId)
      requires Valid()
      modifies this
      ensures Valid() && State() == After(old(State()), Finalize(executionId))
      ensures old(Has(executionId)) ==>
                Has(executionId) && entries[activeExecutions[executionId]].settled
    {
      EventKeepsAccounts(State(), Finalize(executionId));
      if executionId !in activeExecutions {
        return;
      }
      var i := activeExecutions[executionId];
      entries := entries[i := entries[i].(settled := true)];
    }

    /** Fails, reported by `found`, when the execution is not registered. */
    method SetStatus(executionId: ExecId, status: Status) returns (found: bool)
      requires Valid()
      modifies this
      ensures Valid() && State() == After(old(State()), CapacityProtocol.SetStatus(executionId, status))
      ensures found ==> Has(executionId) && entries[activeExecutions[executionId]].status == status
      ensures found == old(Has(executionId))
    {
      EventKeepsAccounts(State(), CapacityProtocol.SetStatus(executionId, status));
      if executionId !in activeExecutions {
        return false;
      }
      var i := activeExecutions[executionId];
      entries := entries[i := entries[i].(status := status)];
      return true;
    }
  }
}
