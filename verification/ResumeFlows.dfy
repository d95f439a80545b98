/** What the flows that resume an execution achieve, whatever fails and whoever interferes. */
module ResumeFlows {
  import opened Wrappers
  import opened ParentPatch
  import opened ResumeProtocol

  /** Ending without error means having found the row taken, or having taken it. */
  lemma EndingStepResolves(s: State, id: FlowId, outcome: Outcome)
    requires RowInv(s.row) && id in s.flows && !s.flows[id].stage.Ended?
    requires Next(s, Advance(id, outcome)).flows[id].stage == Ended(true)
    ensures var row := Next(s, Advance(id, outcome)).row;
            forall w :: w > 0 ==> (Resolved(row, w) <==> w <= s.row.period)
  {
    StepKeepsRow(s, Advance(id, outcome));
    RowAfterKeepsRow(s.row, id, s.flows[id], outcome);
  }

  /** Under any pattern of transient failures: the step that ends a flow without error
      leaves a wait of the parent taken over or cancelled exactly if that wait had begun
      before the step, that is, if the parent had been saved as waiting for it; and so it
      stays. For a child, `w` is the wait it belongs to. */
  lemma EndedFlowsLeaveParentClaimed(s: State, steps: seq<Step>, n: nat, w: nat)
    requires Initial(s) && n < |steps| && steps[n].Advance? && w > 0
    requires var id := steps[n].id;
             && id in Run(s, steps[..n]).flows && !Run(s, steps[..n]).flows[id].stage.Ended?
             && id in Run(s, steps[..n + 1]).flows && Run(s, steps[..n + 1]).flows[id].stage == Ended(true)
    ensures var after := Run(s, steps[..n + 1]).row;
            && (TakenOver(after, w) || w in after.cancelled <==> w <= Run(s, steps[..n]).row.period)
            && (w <= Run(s, steps[..n]).row.period ==> TakenOver(Run(s, steps).row, w) || w in Run(s, steps).row.cancelled)
  {
    InitialRow(s);
    RunKeepsRow(s, steps[..n]);
    RunLast(s, steps, n);
    EndingStepResolves(Run(s, steps[..n]), steps[n].id, steps[n].outcome);
    RunKeepsRow(s, steps[..n + 1]);
    assert steps == steps[..n + 1] + steps[n + 1..];
    RunAppend(s, steps[..n + 1], steps[n + 1..]);
    RunKeepsRow(Run(s, steps[..n + 1]), steps[n + 1..]);
    var after := Run(s, steps[..n + 1]).row;
    assert Resolved(after, w) <==> w <= after.period;
    assert Resolved(after, w) ==> Resolved(Run(s, steps).row, w);
  }

  /** One step of a flow that finds the row running leaves the row alone. */
  lemma FlowOnRunningRow(s: State, id: FlowId)
    requires s.row.status.Running? && id in s.flows
    requires !s.flows[id].stage.WritePatch?
    ensures var t := Next(s, Advance(id, Succeeds));
            && t.row == s.row && id in t.flows && !t.flows[id].stage.WritePatch?
            && (s.flows[id].stage.ReadForPatch? ==> t.flows[id].stage.ReadForStart?)
            && (s.flows[id].stage.ReadForStart? ==> t.flows[id].stage.Claim?)
            && (s.flows[id].stage.Claim? ==> t.flows[id].stage == Ended(true))
            && (s.flows[id].stage.Ended? ==> t.flows[id] == s.flows[id])
  {
  }

  /** The flow of a child that reports to a running row ends without touching the row. */
  lemma ReportToRunningRow(s: State, id: FlowId, child: ChildRun, wait: nat, host: Host)
    requires s.row.status.Running? && id !in s.flows
    ensures var t := Run(s, [Start(id, Child(child, wait), host)] + [Advance(id, Succeeds), Advance(id, Succeeds), Advance(id, Succeeds)]);
            t.row == s.row && id in t.flows && t.flows[id].stage == Ended(true)
  {
    var start, go := Start(id, Child(child, wait), host), Advance(id, Succeeds);
    RunAppend(s, [start], [go, go, go]);
    RunOne(s, start);
    var started := Next(s, start);
    RunThree(started, go, go, go);
    FlowOnRunningRow(started, id);
    FlowOnRunningRow(Next(started, go), id);
    FlowOnRunningRow(Next(Next(started, go), go), id);
  }

  /** A child that reports while its parent still runs, before the parent is saved as
      waiting for it, ends without error; the parent then waits with nobody having
      resumed it. This can happen whenever an engine runs the parent. */
  lemma EarlyReportIsLost(
    s: State, steps: seq<Step>, id: FlowId, child: ChildRun, host: Host, executor: Executor, parked: ParentData)
    requires Initial(s)
    requires var t := Run(s, steps);
             t.row.status.Running? && Runs(t.row, executor) && id !in t.flows
    ensures var t := Run(s, steps);
            var wait := t.row.period + 1;
            var report := [Start(id, Child(child, wait), host)] + [Advance(id, Succeeds), Advance(id, Succeeds), Advance(id, Succeeds)];
            var u := Next(Run(t, report), Park(executor, parked));
            && id in u.flows && u.flows[id].stage == Ended(true)
            && u.row.status.Waiting? && u.row.period == wait && u.row.data == parked
            && !TakenOver(u.row, wait) && wait !in u.row.cancelled
  {
    InitialRow(s);
    RunKeepsRow(s, steps);
    var t := Run(s, steps);
    ReportToRunningRow(t, id, child, t.row.period + 1, host);
    var row := RowNext(t.row, Park(executor, parked));
    StepKeepsRow(t, Park(executor, parked));
    assert !Resolved(row, row.period);
  }

  // ---- When a flow gives up ----

  /** The two step groups that are retried as a whole: embedding the results, and resuming. */
  predicate Patching(stage: Stage) {
    stage.ReadForPatch? || stage.WritePatch?
  }

  /** This step is a failure of the flow in that group. */
  predicate FailsIn(s: State, step: Step, id: FlowId, patching: bool) {
    && step.Advance? && step.id == id && step.outcome.Fails?
    && id in s.flows && !s.flows[id].stage.Ended? && Patching(s.flows[id].stage) == patching
  }

  /** How often a step of the flow failed in that group in the run so far. */
  ghost function Failures(s: State, steps: seq<Step>, id: FlowId, patching: bool): nat
    decreases |steps|
  {
    if steps == [] then 0
    else
      var last := |steps| - 1;
      Failures(s, steps[..last], id, patching) + if FailsIn(Run(s, steps[..last]), steps[last], id, patching) then 1 else 0
  }

  /** `attempt` counts the failures of the group under way. */
  ghost predicate Counted(s: State, id: FlowId, patchFailures: nat, startFailures: nat) {
    if id !in s.flows then patchFailures == startFailures == 0
    else
      var flow := s.flows[id];
      !flow.stage.Ended? ==>
        && flow.attempt == 1 + (if Patching(flow.stage) then patchFailures else startFailures)
        && (Patching(flow.stage) ==> startFailures == 0)
  }

  lemma StepCounts(s: State, step: Step, id: FlowId, patchFailures: nat, startFailures: nat)
    requires Counted(s, id, patchFailures, startFailures)
    ensures Counted(Next(s, step), id, patchFailures + (if FailsIn(s, step, id, true) then 1 else 0),
                    startFailures + (if FailsIn(s, step, id, false) then 1 else 0))
  {
  }

  lemma {:induction false} AttemptsCountFailures(s: State, steps: seq<Step>, id: FlowId)
    requires Initial(s)
    ensures Counted(Run(s, steps), id, Failures(s, steps, id, true), Failures(s, steps, id, false))
    decreases |steps|
  {
    if steps != [] {
      var last := |steps| - 1;
      AttemptsCountFailures(s, steps[..last], id);
      StepCounts(Run(s, steps[..last]), steps[last], id,
                 Failures(s, steps[..last], id, true), Failures(s, steps[..last], id, false));
      RunLast(s, steps, last);
      assert steps[..last + 1] == steps;
    }
  }

  /** Whatever the row has gone through, a flow gives up exactly if a step fails for good, or
      its step group has now failed as often as it may be tried, or the row is found
      finished. A step that fails otherwise is followed by its group's first step. */
  lemma GivesUpExactlyWhen(s: State, steps: seq<Step>, id: FlowId, outcome: Outcome)
    requires Initial(s) && id in Run(s, steps).flows && !Run(s, steps).flows[id].stage.Ended?
    ensures var t := Run(s, steps);
            var stage, limit := t.flows[id].stage, if t.flows[id].origin.Child? then 3 else 1;
            var failures := Failures(s, steps, id, Patching(stage));
            var after := Next(t, Advance(id, outcome)).flows[id].stage;
            && (after == Ended(false) <==>
                  || (outcome.Fails? && (!outcome.retryable || failures + 1 == limit))
                  || (outcome.Succeeds? && stage.ReadForStart? && t.row.status.Success?))
            && failures < limit
            && (outcome.Fails? && outcome.retryable && failures + 1 < limit ==>
                  after == if Patching(stage) then ReadForPatch else ReadForStart)
  {
    AttemptsCountFailures(s, steps, id);
    InitialTries(s, steps);
  }

  lemma InitialTries(s: State, steps: seq<Step>)
    requires Initial(s)
    ensures TriesBounded(Run(s, steps))
  {
    RunKeepsTries(s, steps);
  }

  /** A step that succeeds leads on: a waiting row with a stack is patched with the child's
      results, and written back before it is read again; unless it is finished, what is
      read then is claimed; and the flow is over once the claim was decided. */
  lemma SuccessLeadsOn(s: State, id: FlowId)
    requires id in s.flows
    requires s.flows[id].stage.ReadForPatch? ==> s.flows[id].origin.Child?
    ensures var flow := s.flows[id];
            var after := Next(s, Advance(id, Succeeds));
            match flow.stage
            case ReadForPatch =>
              && after.row == s.row
              && (if s.row.status.Waiting? && |s.row.data.stack| > 0
                  then after.flows[id].stage.WritePatch?
                       && after.flows[id].stage.pending.data == Patch(flow.origin.run, s.row.data)
                  else after.flows[id].stage == ReadForStart)
            case WritePatch(patched) =>
              after.flows[id].stage == ReadForStart && after.row.status == s.row.status && after.row.data == patched.data
            case ReadForStart =>
              && after.row == s.row
              && (if s.row.status.Success? then after.flows[id].stage == Ended(false)
                  else after.flows[id].stage.Claim? && after.flows[id].stage.pending.data == s.row.data)
            case Claim(snapshot) =>
              && after.flows[id].stage == Ended(true)
              && (if s.row.status.Waiting?
                  then after.row.status.Running? && after.row.data == snapshot.data && Some(id) in after.row.executing
                       && !after.row.executing[Some(id)].marked && after.row.executing[Some(id)].host == flow.host
                  else after.row == s.row)
            case Ended(_) => after == s
  {
  }

  /** A step that is reported as failed has changed the row exactly if it took effect: then
      a patch is stored, and a waiting row taken over, with somebody to run it only if the
      execution had been registered. */
  lemma FailedStepMayHaveWritten(s: State, id: FlowId, effect: Effect, retryable: bool)
    requires id in s.flows
    ensures var stage := s.flows[id].stage;
            var row := Next(s, Advance(id, Fails(effect, retryable))).row;
            && (effect.Nothing? || stage.ReadForPatch? || stage.ReadForStart? || stage.Ended? ==> row == s.row)
            && (!effect.Nothing? && stage.WritePatch? ==> row.data == stage.pending.data && row.status == s.row.status)
            && (!effect.Nothing? && stage.Claim? && !s.row.status.Waiting? ==> row == s.row)
            && (!effect.Nothing? && stage.Claim? && s.row.status.Waiting? ==>
                  && row.status.Running? && row.data == stage.pending.data
                  && (row.executing == s.row.executing || effect.Launched?)
                  && (effect.Launched? ==> Some(id) in row.executing))
  {
  }

  /** How many more steps a flow can take: two for each try it has left in each step group. */
  function StepsLeft(flow: Flow): nat {
    var left := if flow.attempt < MaxAttempts(flow.origin) then MaxAttempts(flow.origin) - flow.attempt else 0;
    var start := 2 * MaxAttempts(flow.origin);
    match flow.stage
    case ReadForPatch => start + 2 * left + 2
    case WritePatch(_) => start + 2 * left + 1
    case ReadForStart => 2 * left + 2
    case Claim(_) => 2 * left + 1
    case Ended(_) => 0
  }

  /** Every step brings a flow closer to its end, however it turns out. */
  lemma StepsRunOut(row: Row, flow: Flow, outcome: Outcome)
    requires 1 <= flow.attempt <= MaxAttempts(flow.origin) && !flow.stage.Ended?
    ensures var flow' := FlowAfter(row, flow, outcome);
            && StepsLeft(flow') < StepsLeft(flow) <= 4 * MaxAttempts(flow.origin)
            && 1 <= flow'.attempt <= MaxAttempts(flow.origin) && flow'.origin == flow.origin
  {
  }

  ghost predicate TriesBounded(s: State) {
    forall id :: id in s.flows ==> 1 <= s.flows[id].attempt <= MaxAttempts(s.flows[id].origin)
  }

  lemma {:induction false} RunKeepsTries(s: State, steps: seq<Step>)
    requires TriesBounded(s)
    ensures TriesBounded(Run(s, steps))
    decreases |steps|
  {
    if steps != [] {
      RunKeepsTries(Next(s, steps[0]), steps[1..]);
    }
  }

  /** How often a run lets this flow make a step. */
  function CountAdvances(steps: seq<Step>, id: FlowId): nat {
    if steps == [] then 0
    else (if steps[0].Advance? && steps[0].id == id then 1 else 0) + CountAdvances(steps[1..], id)
  }

  lemma {:induction false} OtherStepsSpareFlow(s: State, steps: seq<Step>, id: FlowId)
    requires id in s.flows && TriesBounded(s)
    ensures id in Run(s, steps).flows && Run(s, steps).flows[id].origin == s.flows[id].origin
    ensures Run(s, steps).flows[id].stage.Ended?
         || StepsLeft(Run(s, steps).flows[id]) + CountAdvances(steps, id) <= StepsLeft(s.flows[id])
    ensures s.flows[id].stage.Ended? ==> Run(s, steps).flows[id] == s.flows[id]
    decreases |steps|
  {
    if steps != [] {
      var step := steps[0];
      if step.Advance? && step.id == id && !s.flows[id].stage.Ended? {
        StepsRunOut(s.row, s.flows[id], step.outcome);
      }
      RunKeepsTries(s, [step]);
      RunOne(s, step);
      OtherStepsSpareFlow(Next(s, step), steps[1..], id);
    }
  }

  /** No step group is tried more often than allowed, and a flow that has made twelve steps
      has ended, whatever failed and whoever interfered. */
  lemma FlowsEnd(s: State, steps: seq<Step>, more: seq<Step>, id: FlowId)
    requires Initial(s) && id in Run(s, steps).flows
    ensures var flow := Run(s, steps).flows[id];
            1 <= flow.attempt <= MaxAttempts(flow.origin)
    ensures CountAdvances(more, id) >= 12 ==>
              id in Run(Run(s, steps), more).flows && Run(Run(s, steps), more).flows[id].stage.Ended?
  {
    RunKeepsTries(s, steps);
    OtherStepsSpareFlow(Run(s, steps), more, id);
  }
}
