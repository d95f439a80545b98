/** The shared database row of one execution and every flow, in any process, that
    tries to resume it: a transition system over their separate awaited steps. */
module ResumeProtocol {
  import opened Wrappers
  import opened ParentPatch

  type FlowId = nat

  datatype Status = New | Running | Waiting | Success | Error | Canceled

  /** A flow runs on behalf of a finished child, or resumes the row directly, as timers,
      polls and webhooks do. A child belongs to the waiting period of its parent in which
      the parent waits for it; the code does not know that number. */
  datatype Origin = Child(run: ChildRun, wait: nat) | Direct

  /** Where an execution runs decides how its outcome is saved. In the main process a save
      spares a cancelled row. A sub-workflow, which runs in its parent's process, does the
      same unless its engine throws. A worker of a scaled instance overwrites any status. */
  datatype Host = Main | SubWorkflow | Worker

  /** Data read earlier, perhaps patched since: the waiting period the row was in at that
      read, and the one for which the data had been saved, 0 if for none. */
  datatype Snapshot = Snapshot(data: ParentData, readIn: nat, savedFor: nat)

  /** Where a flow stands between two awaited steps. */
  datatype Stage =
    | ReadForPatch
    | WritePatch(pending: Snapshot)
    | ReadForStart
    | Claim(pending: Snapshot)
    | Ended(ok: bool)

  /** `host` is where the flow runs the execution once it has claimed it; `attempt` counts
      the tries of the step group under way. */
  datatype Flow = Flow(origin: Origin, host: Host, attempt: nat, stage: Stage)

  /** Who runs the execution: its creator, or the flow that resumed it. */
  type Executor = Option<FlowId>

  /** Every run marks the row as running once, before its engine starts. */
  datatype Engine = Engine(host: Host, marked: bool)

  /** One successful takeover of the row: the period it ended and the data written by it. */
  datatype Takeover = Takeover(period: nat, flow: FlowId, data: ParentData, savedFor: nat)

  /** The row, with its history. */
  datatype Row = Row(
    status: Status, data: ParentData,
    period: nat,                      // how many waiting periods the row has entered
    begun: bool,                      // its creator has started it, or been told not to
    takeovers: seq<Takeover>,         // every conditional update that took effect
    cancelled: set<nat>,              // periods ended by a cancellation
    executing: map<Executor, Engine>, // the processes in which the execution runs
    saved: seq<ParentData>,           // the data saved at the start of each period
    savedFor: nat)                    // the period for which the present data was saved, or 0

  datatype State = State(row: Row, flows: map<FlowId, Flow>)

  /** How a write of the running status turns out for its writer. */
  datatype Write = Confirmed | Unconfirmed | Lost

  /** What had happened when a step reported a failure: nothing, the write had been
      committed, or the claimed execution had even been registered. */
  datatype Effect = Nothing | Written | Launched

  datatype Outcome = Succeeds | Fails(effect: Effect, retryable: bool)

  datatype Ending = Completed | Failed | Threw

  datatype Step =
    | Begin(host: Host, first: Option<Write>)             // the creator starts the fresh row
    | Withdraw                                            // or is cancelled while it queues for capacity
    | MarkRunning(executor: Executor, write: Write)       // before the engine starts
    | SaveProgress(executor: Executor, data: ParentData)  // after a node
    | Park(executor: Executor, data: ParentData)          // the run is saved as waiting
    | Finish(executor: Executor, ending: Ending, data: ParentData)
    | Vanish(executor: Executor)                          // ends without saving anything
    | Cancel(data: ParentData)                            // with the data the canceller has read before
    | Start(id: FlowId, origin: Origin, host: Host)       // a flow is started
    | Advance(id: FlowId, outcome: Outcome)

  const MAX_PARENT_RESUME_ATTEMPTS: nat := 3

  function MaxAttempts(origin: Origin): nat {
    if origin.Child? then MAX_PARENT_RESUME_ATTEMPTS else 1
  }

  // ---- Steps ----

  /** After a failure: the step group starts over, or the flow gives up. */
  function Retry(flow: Flow, retryable: bool, restart: Stage): Flow {
    if retryable && flow.attempt < MaxAttempts(flow.origin)
    then flow.(attempt := flow.attempt + 1, stage := restart)
    else flow.(stage := Ended(false))
  }

  predicate TakesEffect(outcome: Outcome) {
    outcome.Succeeds? || !outcome.effect.Nothing?
  }

  predicate Registers(outcome: Outcome) {
    outcome.Succeeds? || outcome.effect.Launched?
  }

  /** The conditional update: only a row that is still waiting is taken over, and it
      receives the claimant's own snapshot. If the update is reported as failed although
      it was committed, the claimant registers nothing and nobody runs the execution. */
  function TakeOver(row: Row, id: FlowId, host: Host, snapshot: Snapshot, registers: bool): Row {
    if row.status.Waiting? then
      row.(status := Running, data := snapshot.data, savedFor := snapshot.savedFor,
           takeovers := row.takeovers + [Takeover(row.period, id, snapshot.data, snapshot.savedFor)],
           executing := if registers then row.executing[Some(id) := Engine(host, false)] else row.executing)
    else row
  }

  /** The row after a step of a flow. The write of a patch is unconditional. */
  function RowAfter(row: Row, id: FlowId, flow: Flow, outcome: Outcome): Row {
    match flow.stage
    case WritePatch(patched) =>
      if TakesEffect(outcome) then row.(data := patched.data, savedFor := patched.savedFor) else row
    case Claim(snapshot) =>
      if TakesEffect(outcome) then TakeOver(row, id, flow.host, snapshot, Registers(outcome)) else row
    case _ => row
  }

  /** The flow after its step on `row`. A row that no longer waits or has an empty stack
      is not patched; a finished row cannot be resumed, which is not retried; losing the
      takeover to someone else counts as success. */
  function FlowAfter(row: Row, flow: Flow, outcome: Outcome): Flow {
    match flow.stage
    case ReadForPatch =>
      if outcome.Fails? then Retry(flow, outcome.retryable, ReadForPatch)
      else if !row.status.Waiting? || row.data.stack == [] || flow.origin.Direct? then
        flow.(attempt := 1, stage := ReadForStart)
      else flow.(stage := WritePatch(Snapshot(Patch(flow.origin.run, row.data), row.period, row.savedFor)))
    case WritePatch(_) =>
      if outcome.Fails? then Retry(flow, outcome.retryable, ReadForPatch)
      else flow.(attempt := 1, stage := ReadForStart)
    case ReadForStart =>
      if outcome.Fails? then Retry(flow, outcome.retryable, ReadForStart)
      else if row.status.Success? then flow.(stage := Ended(false))
      else flow.(stage := Claim(Snapshot(row.data, row.period, row.savedFor)))
    case Claim(_) =>
      if outcome.Fails? then Retry(flow, outcome.retryable, ReadForStart)
      else flow.(stage := Ended(true))
    case Ended(_) => flow
  }

  /** A child without an output or an error has nothing to patch. */
  function NewFlow(origin: Origin, host: Host): Flow {
    Flow(origin, host, 1, if origin.Child? && HasResult(origin.run) then ReadForPatch else ReadForStart)
  }

  predicate Runs(row: Row, executor: Executor) {
    executor in row.executing && row.executing[executor].marked
  }

  /** The creator starts a fresh row. Unless the instance is scaled, it writes the running
      status itself, before the write that precedes every engine; if that is reported as
      failed, nobody runs the execution. */
  function Begun(row: Row, host: Host, first: Option<Write>): Row {
    var running := row.executing[None := Engine(host, false)];
    if first.None? || host.Worker? then row.(begun := true, executing := running)
    else if first.value.Confirmed? then row.(begun := true, status := Running, executing := running)
    else if first.value.Unconfirmed? then row.(begun := true, status := Running)
    else row.(begun := true)
  }

  /** The write before the engine starts, whatever the status is. If it is reported as
      failed the run is over, except that a worker's job is still saved as failed, or taken
      up again. */
  function Marked(row: Row, executor: Executor, write: Write): Row
    requires executor in row.executing
  {
    var written := if write.Lost? then row else row.(status := Running);
    var engine := row.executing[executor];
    if write.Confirmed? then written.(executing := row.executing[executor := engine.(marked := true)])
    else if engine.host.Worker? then written
    else written.(executing := row.executing - {executor})
  }

  /** Whether the last save of such a run leaves a cancelled row alone. */
  predicate Spares(host: Host, threw: bool) {
    host.Main? || (host.SubWorkflow? && !threw)
  }

  /** The row after a step of whoever runs or cancels the execution. */
  function RowNext(row: Row, step: Step): Row {
    match step
    case Begin(host, first) => if row.begun then row else Begun(row, host, first)
    case Withdraw => if row.begun then row else row.(begun := true, status := Canceled)
    case MarkRunning(executor, write) =>
      if executor in row.executing && !row.executing[executor].marked then Marked(row, executor, write) else row
    case SaveProgress(executor, data) =>
      if !Runs(row, executor) || row.status.Canceled? || row.status.Success? then row
      else row.(status := Running, data := data, savedFor := 0)
    case Park(executor, data) =>
      if !Runs(row, executor) then row
      else
        var left := row.(executing := row.executing - {executor});
        if row.status.Canceled? && Spares(row.executing[executor].host, false) then left
        else
          left.(status := Waiting, data := data, period := row.period + 1,
                saved := row.saved + [data], savedFor := row.period + 1)
    case Finish(executor, ending, data) =>
      if executor !in row.executing then row
      else
        var left := row.(executing := row.executing - {executor});
        if row.status.Canceled? && Spares(row.executing[executor].host, ending.Threw?) then left
        else left.(status := if ending.Completed? then Success else Error, data := data, savedFor := 0)
    case Vanish(executor) => row.(executing := row.executing - {executor})
    case Cancel(data) =>
      row.(status := Canceled, data := data, savedFor := 0,
           cancelled := if row.status.Waiting? then row.cancelled + {row.period} else row.cancelled)
    case _ => row
  }

  /** The successor state; a step that is not possible changes nothing. */
  function Next(s: State, step: Step): State {
    match step
    case Start(id, origin, host) =>
      if id !in s.flows then s.(flows := s.flows[id := NewFlow(origin, host)]) else s
    case Advance(id, outcome) =>
      if id !in s.flows then s
      else
        State(RowAfter(s.row, id, s.flows[id], outcome),
              s.flows[id := FlowAfter(s.row, s.flows[id], outcome)])
    case _ => s.(row := RowNext(s.row, step))
  }

  /** A run: any interleaving of any steps. */
  function Run(s: State, steps: seq<Step>): State
    decreases |steps|
  {
    if steps == [] then s else Run(Next(s, steps[0]), steps[1..])
  }

  predicate Initial(s: State) {
    && s.row.status.New? && s.row.period == 0 && !s.row.begun
    && s.row.takeovers == [] && s.row.cancelled == {} && s.row.executing == map[]
    && s.row.saved == [] && s.row.savedFor == 0
    && s.flows == map[]
  }

  lemma {:induction false} RunAppend(s: State, a: seq<Step>, b: seq<Step>)
    ensures Run(s, a + b) == Run(Run(s, a), b)
    decreases |a|
  {
    if a == [] {
      assert a + b == b;
    } else {
      assert (a + b)[1..] == a[1..] + b;
      RunAppend(Next(s, a[0]), a[1..], b);
    }
  }

  lemma RunOne(s: State, a: Step)
    ensures Run(s, [a]) == Next(s, a)
  {
  }

  lemma RunTwo(s: State, a: Step, b: Step)
    ensures Run(s, [a, b]) == Next(Next(s, a), b)
  {
    assert [a, b][1..] == [b];
    RunOne(Next(s, a), b);
  }

  lemma RunThree(s: State, a: Step, b: Step, c: Step)
    ensures Run(s, [a, b, c]) == Next(Next(Next(s, a), b), c)
  {
    assert [a, b, c][1..] == [b, c];
    RunTwo(Next(s, a), b, c);
  }

  /** The last step of a run is taken from where the others lead. */
  lemma RunLast(s: State, steps: seq<Step>, n: nat)
    requires n < |steps|
    ensures Run(s, steps[..n + 1]) == Next(Run(s, steps[..n]), steps[n])
  {
    assert steps[..n + 1] == steps[..n] + [steps[n]];
    RunAppend(s, steps[..n], [steps[n]]);
    RunOne(Run(s, steps[..n]), steps[n]);
  }

  /** A run into the first wait, in which one flow starts. */
  function FirstWait(first: ParentData, origin: Origin, host: Host): seq<Step> {
    [Begin(Main, Some(Confirmed)), MarkRunning(None, Confirmed), Park(None, first)] + [Start(0, origin, host)]
  }

  const ThreeSteps: seq<Step> := [Advance(0, Succeeds), Advance(0, Succeeds), Advance(0, Succeeds)]

  lemma FirstWaitReached(s: State, first: ParentData, origin: Origin, host: Host)
    requires Initial(s)
    ensures var t := Run(s, FirstWait(first, origin, host));
            && t.row.status.Waiting? && t.row.period == 1 && t.row.data == first
            && t.row.takeovers == [] && t.row.cancelled == {} && t.row.executing == map[]
            && t.row.saved == [first] && t.row.savedFor == 1 && t.row.begun
            && t.flows == map[0 := NewFlow(origin, host)]
  {
    var start := [Begin(Main, Some(Confirmed)), MarkRunning(None, Confirmed), Park(None, first)];
    RunAppend(s, start, [Start(0, origin, host)]);
    RunThree(s, Begin(Main, Some(Confirmed)), MarkRunning(None, Confirmed), Park(None, first));
    RunOne(Run(s, start), Start(0, origin, host));
  }

  /** Read, patch and re-read by a child: it is ready to claim. */
  lemma ReadyToClaim(s: State, first: ParentData, child: ChildRun, wait: nat, host: Host)
    requires Initial(s) && HasResult(child) && first.stack != []
    ensures var t := Run(s, FirstWait(first, Child(child, wait), host) + ThreeSteps);
            && t.row.status.Waiting? && t.row.period == 1 && t.row.takeovers == [] && t.row.executing == map[]
            && t.flows == map[0 := Flow(Child(child, wait), host, 1, Claim(Snapshot(Patch(child, first), 1, 1)))]
  {
    RunAppend(s, FirstWait(first, Child(child, wait), host), ThreeSteps);
    FirstWaitReached(s, first, Child(child, wait), host);
    RunThree(Run(s, FirstWait(first, Child(child, wait), host)), Advance(0, Succeeds), Advance(0, Succeeds), Advance(0, Succeeds));
  }

  // ---- Takeovers ----

  /** Someone took the row over in that period. */
  ghost predicate TakenOver(row: Row, period: nat) {
    exists i :: 0 <= i < |row.takeovers| && row.takeovers[i].period == period
  }

  ghost predicate Resolved(row: Row, period: nat) {
    TakenOver(row, period) || period in row.cancelled
  }

  ghost predicate ClaimsInv(row: Row) {
    && (forall i, j :: 0 <= i < j < |row.takeovers| ==> row.takeovers[i].period < row.takeovers[j].period)
    && (forall i :: 0 <= i < |row.takeovers| ==> 0 < row.takeovers[i].period <= row.period)
    && (forall p :: p in row.cancelled ==> 0 < p <= row.period)
    && (row.status.Waiting? ==> row.period > 0 && !Resolved(row, row.period))
    && (forall p :: 0 < p < row.period ==> Resolved(row, p))
    && (row.period > 0 && !row.status.Waiting? ==> Resolved(row, row.period))
  }

  /** At most one process runs the execution, and only while the row is fresh, running or
      cancelled. */
  ghost predicate ExecutorsInv(row: Row) {
    && (!row.begun ==> row.period == 0 && row.executing == map[] && (row.status.New? || row.status.Canceled?))
    && (row.status.New? ==> row.period == 0)
    && (forall e, f :: e in row.executing && f in row.executing ==> e == f)
    && (row.executing != map[] ==> row.status.New? || row.status.Running? || row.status.Canceled?)
  }

  ghost predicate RowInv(row: Row) {
    ClaimsInv(row) && ExecutorsInv(row)
  }

  lemma ResolvedSurvives(row: Row, row': Row)
    requires row.takeovers <= row'.takeovers && row.cancelled <= row'.cancelled
    ensures forall p :: Resolved(row, p) ==> Resolved(row', p)
  {
    forall p | Resolved(row, p)
      ensures Resolved(row', p)
    {
      if TakenOver(row, p) {
        var i :| 0 <= i < |row.takeovers| && row.takeovers[i].period == p;
        assert row'.takeovers[i].period == p;
      }
    }
  }

  lemma TakeOverKeepsRow(row: Row, id: FlowId, host: Host, snapshot: Snapshot, registers: bool)
    requires RowInv(row)
    ensures RowInv(TakeOver(row, id, host, snapshot, registers))
  {
    var row' := TakeOver(row, id, host, snapshot, registers);
    ResolvedSurvives(row, row');
    if row.status.Waiting? {
      var n := |row.takeovers|;
      assert row'.takeovers[n].period == row.period;
      assert TakenOver(row', row.period);
      forall i | 0 <= i < n
        ensures row'.takeovers[i].period < row.period
      {
        assert row'.takeovers[i] == row.takeovers[i];
        assert TakenOver(row, row.takeovers[i].period);
      }
    }
  }

  /** Steps that neither begin nor end a wait. */
  lemma OtherFieldsKeepClaims(row: Row, row': Row)
    requires ClaimsInv(row) && (row.status.Waiting? <==> row'.status.Waiting?)
    requires row'.takeovers == row.takeovers && row'.cancelled == row.cancelled && row'.period == row.period
    ensures ClaimsInv(row')
  {
    assert forall p :: Resolved(row', p) <==> Resolved(row, p);
  }

  /** A wait begins, or is ended by a cancellation. */
  lemma WaitKeepsClaims(row: Row, row': Row)
    requires ClaimsInv(row) && row'.takeovers == row.takeovers
    requires
      || (!row.status.Waiting? && row'.status.Waiting? && row'.period == row.period + 1 && row'.cancelled == row.cancelled)
      || (row.status.Waiting? && row'.status.Canceled? && row'.period == row.period
          && row'.cancelled == row.cancelled + {row.period})
    ensures ClaimsInv(row')
  {
    assert forall p :: TakenOver(row', p) <==> TakenOver(row, p);
    ResolvedSurvives(row, row');
  }

  lemma RowNextKeepsClaims(row: Row, step: Step)
    requires RowInv(row)
    ensures ClaimsInv(RowNext(row, step))
  {
    var row' := RowNext(row, step);
    if (row.status.Waiting? <==> row'.status.Waiting?) && row'.cancelled == row.cancelled {
      OtherFieldsKeepClaims(row, row');
    } else {
      WaitKeepsClaims(row, row');
    }
  }

  lemma RowNextKeepsExecutors(row: Row, step: Step)
    requires RowInv(row)
    ensures ExecutorsInv(RowNext(row, step))
  {
  }

  lemma RowAfterKeepsRow(row: Row, id: FlowId, flow: Flow, outcome: Outcome)
    requires RowInv(row)
    ensures RowInv(RowAfter(row, id, flow, outcome))
    ensures flow.stage.Claim? && TakesEffect(outcome) ==> !RowAfter(row, id, flow, outcome).status.Waiting?
  {
    match flow.stage {
      case WritePatch(patched) =>
        var row' := row.(data := patched.data, savedFor := patched.savedFor);
        ResolvedSurvives(row, row');
        assert forall p :: TakenOver(row', p) <==> TakenOver(row, p);
      case Claim(snapshot) =>
        TakeOverKeepsRow(row, id, flow.host, snapshot, Registers(outcome));
      case _ =>
    }
  }

  /** The history only grows. */
  lemma StepKeepsHistory(s: State, step: Step)
    ensures s.row.takeovers <= Next(s, step).row.takeovers && s.row.cancelled <= Next(s, step).row.cancelled
    ensures s.row.period <= Next(s, step).row.period
  {
  }

  lemma OwnStepKeepsRow(s: State, step: Step)
    requires RowInv(s.row) && !step.Start? && !step.Advance?
    ensures RowInv(Next(s, step).row)
  {
    RowNextKeepsClaims(s.row, step);
    RowNextKeepsExecutors(s.row, step);
  }

  lemma StepKeepsRow(s: State, step: Step)
    requires RowInv(s.row)
    ensures RowInv(Next(s, step).row)
    ensures forall p :: Resolved(s.row, p) ==> Resolved(Next(s, step).row, p)
    ensures s.row.period <= Next(s, step).row.period
  {
    StepKeepsHistory(s, step);
    ResolvedSurvives(s.row, Next(s, step).row);
    match step {
      case Start(_, _, _) =>
      case Advance(id, outcome) =>
        if id in s.flows {
          RowAfterKeepsRow(s.row, id, s.flows[id], outcome);
        }
      case _ => OwnStepKeepsRow(s, step);
    }
  }

  lemma {:induction false} RunKeepsRow(s: State, steps: seq<Step>)
    requires RowInv(s.row)
    ensures RowInv(Run(s, steps).row)
    ensures forall p :: Resolved(s.row, p) ==> Resolved(Run(s, steps).row, p)
    ensures s.row.period <= Run(s, steps).row.period
    decreases |steps|
  {
    if steps != [] {
      StepKeepsRow(s, steps[0]);
      RunKeepsRow(Next(s, steps[0]), steps[1..]);
    }
  }

  lemma InitialRow(s: State)
    requires Initial(s)
    ensures RowInv(s.row)
  {
  }

  /** In every run, whatever timers, polls, webhooks and children race, no waiting period
      is taken over twice. */
  lemma EachPeriodClaimedOnce(s: State, steps: seq<Step>)
    requires Initial(s)
    ensures var takeovers := Run(s, steps).row.takeovers;
            forall i, j :: 0 <= i < j < |takeovers| ==> takeovers[i].period != takeovers[j].period
  {
    InitialRow(s);
    RunKeepsRow(s, steps);
  }
}
