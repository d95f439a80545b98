/** Who runs an execution, and what becomes of a cancellation while somebody does. */
module ResumeExecutors {
  import opened Wrappers
  import opened ParentPatch
  import opened ResumeProtocol

  // ---- Nobody runs a running row ----

  /** The step gives the run up and leaves the row to itself: outside a worker a write of
      the running status is reported as failed, a claim is committed and reported as failed
      before the execution is registered, or whoever runs it ends without saving. */
  predicate Abandons(s: State, step: Step) {
    match step
    case Begin(host, first) => !s.row.begun && !host.Worker? && first.Some? && !first.value.Confirmed?
    case MarkRunning(executor, write) =>
      && executor in s.row.executing && !s.row.executing[executor].marked
      && !s.row.executing[executor].host.Worker? && !write.Confirmed?
    case Vanish(executor) => executor in s.row.executing
    case Advance(id, outcome) =>
      && id in s.flows && s.flows[id].stage.Claim? && s.row.status.Waiting?
      && outcome.Fails? && outcome.effect.Written?
    case _ => false
  }

  /** Some step of the run did so in that waiting period, or after it and before the next. */
  ghost predicate AbandonedIn(s: State, steps: seq<Step>, period: nat) {
    exists n :: 0 <= n < |steps| && Abandons(Run(s, steps[..n]), steps[n]) && Run(s, steps[..n]).row.period == period
  }

  ghost predicate LeftAlone(row: Row) {
    row.begun && row.executing == map[] && !row.status.Waiting?
  }

  lemma AbandoningLeavesAlone(s: State, step: Step)
    requires RowInv(s.row) && Abandons(s, step)
    ensures LeftAlone(Next(s, step).row) && Next(s, step).row.period == s.row.period
  {
  }

  lemma LeftAloneLasts(s: State, step: Step)
    requires LeftAlone(s.row)
    ensures LeftAlone(Next(s, step).row) && Next(s, step).row.period == s.row.period
  {
  }

  lemma NobodyRunsBefore(s: State, step: Step)
    requires RowInv(s.row) && Next(s, step).row.status.Running? && Next(s, step).row.executing == map[]
    requires !Abandons(s, step)
    ensures s.row.status.Running? && s.row.executing == map[] && Next(s, step).row.period == s.row.period
  {
    assert forall e :: e !in Next(s, step).row.executing;
    match step {
      case Begin(_, _) =>
        assert !s.row.begun ==> None !in Next(s, step).row.executing;
      case Advance(id, _) =>
        assert Some(id) !in Next(s, step).row.executing;
      case MarkRunning(executor, _) =>
        assert executor !in Next(s, step).row.executing;
      case SaveProgress(executor, _) =>
        assert executor !in Next(s, step).row.executing;
      case _ =>
    }
  }

  lemma AbandonedEarlier(s: State, steps: seq<Step>, period: nat)
    requires steps != [] && AbandonedIn(s, steps[..|steps| - 1], period)
    ensures AbandonedIn(s, steps, period)
  {
    var front := steps[..|steps| - 1];
    var n :| 0 <= n < |front| && Abandons(Run(s, front[..n]), front[n]) && Run(s, front[..n]).row.period == period;
    assert front[..n] == steps[..n] && front[n] == steps[n];
  }

  lemma {:induction false} AbandonedExactly(s: State, steps: seq<Step>)
    requires Initial(s)
    ensures RowInv(Run(s, steps).row)
    ensures AbandonedIn(s, steps, Run(s, steps).row.period) ==> LeftAlone(Run(s, steps).row)
    ensures forall p: nat :: AbandonedIn(s, steps, p) ==> p <= Run(s, steps).row.period
    ensures Run(s, steps).row.status.Running? && Run(s, steps).row.executing == map[] ==>
              AbandonedIn(s, steps, Run(s, steps).row.period)
    decreases |steps|
  {
    InitialRow(s);
    RunKeepsRow(s, steps);
    if steps != [] {
      var last := |steps| - 1;
      var front, before, step := steps[..last], Run(s, steps[..last]), steps[last];
      AbandonedExactly(s, front);
      RunLast(s, steps, last);
      assert steps[..last + 1] == steps;
      StepKeepsRow(before, step);
      forall p: nat | AbandonedIn(s, steps, p)
        ensures p <= Run(s, steps).row.period
        ensures p == Run(s, steps).row.period ==> LeftAlone(Run(s, steps).row)
      {
        var n :| 0 <= n < |steps| && Abandons(Run(s, steps[..n]), steps[n]) && Run(s, steps[..n]).row.period == p;
        if n == last {
          AbandoningLeavesAlone(before, step);
        } else {
          assert front[..n] == steps[..n] && front[n] == steps[n];
          assert AbandonedIn(s, front, p);
          if p == Run(s, steps).row.period {
            LeftAloneLasts(before, step);
          }
        }
      }
      if Run(s, steps).row.status.Running? && Run(s, steps).row.executing == map[] && !Abandons(before, step) {
        NobodyRunsBefore(before, step);
        AbandonedEarlier(s, steps, before.row.period);
      } else if Abandons(before, step) {
        AbandoningLeavesAlone(before, step);
      }
    }
  }

  lemma AtMostOneElement<T>(s: set<T>)
    requires forall e, f :: e in s && f in s ==> e == f
    ensures |s| <= 1
  {
    if e :| e in s {
      assert s == {e};
    }
  }

  /** In every run at most one process runs the execution, and nobody does while the row
      waits. A row marked as running has nobody running it exactly if, since its last wait
      began, some step has given the run up in one of those ways. */
  lemma AtMostOneExecutes(s: State, steps: seq<Step>)
    requires Initial(s)
    ensures var row := Run(s, steps).row;
            && |row.executing.Keys| <= 1
            && (row.status.Waiting? ==> row.executing == map[])
            && (row.status.Running? ==> (row.executing == map[] <==> AbandonedIn(s, steps, row.period)))
  {
    AbandonedExactly(s, steps);
    AtMostOneElement(Run(s, steps).row.executing.Keys);
  }

  /** Runs into that state without any wait: the creator's own write is committed and
      reported as failed, or the one before the engine is. */
  lemma LostStatusWriteLeavesNobodyRunning(s: State, host: Host)
    requires Initial(s) && !host.Worker?
    ensures var row := Run(s, [Begin(host, Some(Unconfirmed))]).row;
            row.status.Running? && row.executing == map[]
    ensures var row := Run(s, [Begin(host, Some(Confirmed)), MarkRunning(None, Unconfirmed)]).row;
            row.status.Running? && row.executing == map[]
  {
    RunOne(s, Begin(host, Some(Unconfirmed)));
    RunTwo(s, Begin(host, Some(Confirmed)), MarkRunning(None, Unconfirmed));
  }

  /** A claim is committed and reported as failed; the retry finds the row taken, and the
      flow ends without error. Nobody runs the execution. */
  lemma LostClaimIsTakenForSuccess(s: State, id: FlowId)
    requires RowInv(s.row) && s.row.status.Waiting? && id in s.flows
    requires s.flows[id].stage.Claim? && s.flows[id].attempt < MaxAttempts(s.flows[id].origin)
    ensures var t := Run(s, [Advance(id, Fails(Written, true)), Advance(id, Succeeds), Advance(id, Succeeds)]);
            && id in t.flows && t.flows[id].stage == Ended(true)
            && t.row.status.Running? && t.row.executing == map[]
  {
    RunThree(s, Advance(id, Fails(Written, true)), Advance(id, Succeeds), Advance(id, Succeeds));
  }

  /** A run from the start into that state. */
  lemma LostClaimLeavesNobodyRunning(s: State, first: ParentData, child: ChildRun, host: Host)
    requires Initial(s) && first.stack != [] && HasResult(child)
    ensures var t := Run(s, FirstWait(first, Child(child, 1), host) + ThreeSteps +
                            [Advance(0, Fails(Written, true)), Advance(0, Succeeds), Advance(0, Succeeds)]);
            && 0 in t.flows && t.flows[0].stage == Ended(true)
            && t.row.status.Running? && t.row.executing == map[]
  {
    var before := FirstWait(first, Child(child, 1), host);
    RunAppend(s, before + ThreeSteps, [Advance(0, Fails(Written, true)), Advance(0, Succeeds), Advance(0, Succeeds)]);
    ReadyToClaim(s, first, child, 1, host);
    InitialRow(s);
    RunKeepsRow(s, before + ThreeSteps);
    LostClaimIsTakenForSuccess(Run(s, before + ThreeSteps), 0);
  }

  // ---- What whoever runs the execution achieves ----

  /** The start and every mark show on the row, and say who runs it where. */
  lemma StartsShow(s: State, host: Host, executor: Executor)
    requires RowInv(s.row)
    ensures !s.row.begun ==>
              var queued := Next(s, Begin(host, None)).row;
              queued.begun && queued.executing == map[None := Engine(host, false)] && queued.status == s.row.status
    ensures !s.row.begun && !host.Worker? ==>
              var started := Next(s, Begin(host, Some(Confirmed))).row;
              started.begun && started.executing == map[None := Engine(host, false)] && started.status.Running?
    ensures !s.row.begun ==>
              var withdrawn := Next(s, Withdraw).row;
              withdrawn.begun && withdrawn.executing == map[] && withdrawn.status.Canceled?
    ensures executor in s.row.executing && !s.row.executing[executor].marked ==>
              var marked := Next(s, MarkRunning(executor, Confirmed)).row;
              && marked.status.Running? && marked.data == s.row.data && Runs(marked, executor)
              && marked.executing[executor].host == s.row.executing[executor].host
  {
    assert s.row.executing != map[] || s.row.executing[None := Engine(host, false)] == map[None := Engine(host, false)];
  }

  /** What a run saves is in the row, and nobody runs it after its last save, unless the row
      was cancelled and the save spares it: then only the run is over. */
  lemma SavesShow(s: State, executor: Executor, data: ParentData, ending: Ending)
    requires RowInv(s.row) && Runs(s.row, executor)
    ensures var host, cancelled := s.row.executing[executor].host, s.row.status.Canceled?;
            var progress, parked, done :=
              Next(s, SaveProgress(executor, data)).row, Next(s, Park(executor, data)).row,
              Next(s, Finish(executor, ending, data)).row;
            && progress.executing == s.row.executing && parked.executing == done.executing == map[]
            && (cancelled ==> progress == s.row)
            && (!cancelled ==> progress.status.Running? && progress.data == data)
            && (cancelled && !host.Worker? ==> parked.status.Canceled? && parked.data == s.row.data && parked.period == s.row.period)
            && (!cancelled || host.Worker? ==> parked.status.Waiting? && parked.data == data && parked.period == s.row.period + 1)
            && (cancelled && (host.Main? || (host.SubWorkflow? && !ending.Threw?)) ==>
                  done.status.Canceled? && done.data == s.row.data)
            && (!cancelled || host.Worker? || (host.SubWorkflow? && ending.Threw?) ==>
                  done.data == data && done.status == (if ending.Completed? then Success else Error))
  {
    assert s.row.executing - {executor} == map[];
  }

  /** A cancellation shows at once, whatever the row was doing, and leaves the run to itself. */
  lemma CancellationShows(s: State, data: ParentData)
    ensures var row := Next(s, Cancel(data)).row;
            && row.status.Canceled? && row.data == data && row.executing == s.row.executing
            && row.takeovers == s.row.takeovers && row.period == s.row.period
            && (s.row.status.Waiting? ==> row.period in row.cancelled)
  {
  }

  // ---- Cancellations ----

  /** Nobody is left who would write over the cancellation. */
  ghost predicate Final(row: Row) {
    row.begun && forall e :: e in row.executing ==> row.executing[e] == Engine(Main, true)
  }

  lemma FinalStep(s: State, step: Step)
    requires s.row.status.Canceled? && Final(s.row)
    ensures Next(s, step).row.status.Canceled? && Final(Next(s, step).row)
  {
  }

  lemma {:induction false} FinalCancellationLasts(s: State, steps: seq<Step>)
    requires s.row.status.Canceled? && Final(s.row)
    ensures Run(s, steps).row.status.Canceled?
    decreases |steps|
  {
    if steps != [] {
      FinalStep(s, steps[0]);
      FinalCancellationLasts(Next(s, steps[0]), steps[1..]);
    }
  }

  /** A step that writes over a cancellation which is not final. */
  lemma SomebodyOverwrites(s: State) returns (step: Step)
    requires s.row.status.Canceled? && !Final(s.row)
    ensures !Next(s, step).row.status.Canceled?
  {
    if !s.row.begun {
      step := Begin(Main, Some(Confirmed));
    } else {
      var e :| e in s.row.executing && s.row.executing[e] != Engine(Main, true);
      if !s.row.executing[e].marked {
        step := MarkRunning(e, Confirmed);
      } else {
        step := Finish(e, Threw, s.row.data);
      }
    }
  }

  /** A cancelled row stays cancelled, whatever happens afterwards, exactly if its creator
      has started it, or has been taken out of the queue, and whoever still runs it has
      already marked it as running and runs it in the main process, where every save spares
      a cancelled row. */
  lemma CancellationIsFinalExactlyWhen(s: State, steps: seq<Step>)
    requires Initial(s) && Run(s, steps).row.status.Canceled?
    ensures var t := Run(s, steps);
            (forall more :: Run(t, more).row.status.Canceled?) <==>
            t.row.begun && forall e :: e in t.row.executing ==> t.row.executing[e].marked && t.row.executing[e].host.Main?
  {
    var t := Run(s, steps);
    if Final(t.row) {
      forall more
        ensures Run(t, more).row.status.Canceled?
      {
        FinalCancellationLasts(t, more);
      }
    } else {
      var step := SomebodyOverwrites(t);
      RunOne(t, step);
      assert !Run(t, [step]).row.status.Canceled?;
    }
  }

  /** The ordinary case: stopped while it runs in the main process, an execution stays
      cancelled although it is still running. */
  lemma StoppedInMainProcess(s: State, d: ParentData, more: seq<Step>)
    requires Initial(s)
    ensures var t := Run(s, [Begin(Main, Some(Confirmed)), MarkRunning(None, Confirmed), Cancel(d)]);
            Runs(t.row, None) && Run(t, more).row.status.Canceled?
  {
    RunThree(s, Begin(Main, Some(Confirmed)), MarkRunning(None, Confirmed), Cancel(d));
    FinalCancellationLasts(Run(s, [Begin(Main, Some(Confirmed)), MarkRunning(None, Confirmed), Cancel(d)]), more);
  }

  /** Cancelled before it was started, an execution runs all the same. */
  lemma CancelledBeforeItsStart(s: State, d: ParentData)
    requires Initial(s)
    ensures var row := Run(s, [Cancel(d), Begin(Main, Some(Confirmed)), MarkRunning(None, Confirmed)]).row;
            row.status.Running? && Runs(row, None) && row.data == d
  {
    RunThree(s, Cancel(d), Begin(Main, Some(Confirmed)), MarkRunning(None, Confirmed));
  }

  /** Stopped while a worker runs it, an execution ends as successful if it completes. */
  lemma WorkerOverwritesCancellation(s: State, d: ParentData, result: ParentData)
    requires Initial(s)
    ensures var row := Run(s, [Begin(Worker, None), MarkRunning(None, Confirmed), Cancel(d)] + [Finish(None, Completed, result)]).row;
            row.status.Success? && row.data == result
  {
    RunAppend(s, [Begin(Worker, None), MarkRunning(None, Confirmed), Cancel(d)], [Finish(None, Completed, result)]);
    RunThree(s, Begin(Worker, None), MarkRunning(None, Confirmed), Cancel(d));
    RunOne(Run(s, [Begin(Worker, None), MarkRunning(None, Confirmed), Cancel(d)]), Finish(None, Completed, result));
  }
}
