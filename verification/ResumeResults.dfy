/** What the data of a resumed execution shows: a result of a child it waited for. */
module ResumeResults {
  import opened Wrappers
  import opened ParentPatch
  import opened ResumeProtocol
  import opened ResumeData

  /** The data shows the outcome of some child belonging to that waiting period. */
  ghost predicate Carries(flows: map<FlowId, Flow>, period: nat, d: ParentData) {
    exists id :: id in flows && flows[id].origin.Child? && flows[id].origin.wait == period
                 && CarriesFrom(flows[id].origin.run, d)
  }

  /** The hypotheses of the result below. The row is resumed by children only, each with an
      output or an error; while it waits, only children of that wait take steps; and it is
      saved as waiting with a non-empty stack, and before any child of the coming wait has
      reported. Flows left over from other waits may be anywhere as long as the row does
      not wait. */
  ghost predicate Orderly(s: State, step: Step) {
    && (step.Start? ==> step.origin.Child? && HasResult(step.origin.run))
    && (step.Advance? && step.id in s.flows && s.row.status.Waiting? && !s.flows[step.id].stage.Ended? ==>
          s.flows[step.id].origin.Child? && s.flows[step.id].origin.wait == s.row.period)
    && (step.Park? ==>
          && step.data.stack != []
          && forall id :: id in s.flows && !s.flows[id].stage.Ended? && s.flows[id].origin.Child? ==>
               s.flows[id].origin.wait != s.row.period + 1)
  }

  ghost predicate OrderlyRun(s: State, steps: seq<Step>)
    decreases |steps|
  {
    steps == [] || (Orderly(s, steps[0]) && OrderlyRun(Next(s, steps[0]), steps[1..]))
  }

  /** What is known of a flow at each stage: once past its own patch, the row and every
      snapshot it takes show a child's outcome for as long as the row waits for it. */
  ghost predicate FlowCarries(row: Row, flows: map<FlowId, Flow>, flow: Flow) {
    && flow.origin.Child? && HasResult(flow.origin.run)
    && (flow.stage.WritePatch? ==> CarriesFrom(flow.origin.run, flow.stage.pending.data))
    && (row.status.Waiting? && flow.origin.wait == row.period && Pending(flow.stage) ==>
          flow.stage.pending.readIn == row.period)
    && (row.status.Waiting? && flow.origin.wait == row.period ==>
          match flow.stage
          case ReadForStart => Carries(flows, row.period, row.data)
          case Claim(snapshot) => Carries(flows, row.period, snapshot.data) && Carries(flows, row.period, row.data)
          case _ => true)
  }

  ghost predicate TakeoversCarry(row: Row, flows: map<FlowId, Flow>) {
    forall i :: 0 <= i < |row.takeovers| ==> Carries(flows, row.takeovers[i].period, row.takeovers[i].data)
  }

  ghost predicate CarryInv(s: State) {
    && (s.row.status.Waiting? ==> s.row.data.stack != [])
    && (forall id :: id in s.flows ==> FlowCarries(s.row, s.flows, s.flows[id]))
    && TakeoversCarry(s.row, s.flows)
  }

  lemma CarriesSurvives(flows: map<FlowId, Flow>, flows': map<FlowId, Flow>, p: nat, d: ParentData)
    requires Extends(flows, flows') && Carries(flows, p, d)
    ensures Carries(flows', p, d)
  {
  }

  lemma TakeoversStillCarry(row: Row, flows: map<FlowId, Flow>, flows': map<FlowId, Flow>)
    requires Extends(flows, flows') && TakeoversCarry(row, flows)
    ensures TakeoversCarry(row, flows')
  {
  }

  /** Another flow's step: the row it leaves is patched data, or no longer waits. */
  lemma OtherFlowStillCarries(row: Row, row': Row, flows: map<FlowId, Flow>, flows': map<FlowId, Flow>, flow: Flow)
    requires FlowCarries(row, flows, flow) && Extends(flows, flows')
    requires row'.status.Waiting? ==> row.status.Waiting? && row'.period == row.period
    requires row'.data == row.data || !row'.status.Waiting? || Carries(flows', row'.period, row'.data)
    ensures FlowCarries(row', flows', flow)
  {
  }

  lemma AdvanceKeepsOwnFlow(row: Row, flows: map<FlowId, Flow>, id: FlowId, outcome: Outcome)
    requires id in flows && FlowCarries(row, flows, flows[id])
    requires row.status.Waiting? ==> row.data.stack != []
    ensures var row' := RowAfter(row, id, flows[id], outcome);
            var flow' := FlowAfter(row, flows[id], outcome);
            FlowCarries(row', flows[id := flow'], flow')
  {
    var flow := flows[id];
    var flow' := FlowAfter(row, flow, outcome);
    var flows' := flows[id := flow'];
    assert Extends(flows, flows');
    if row.status.Waiting? && flow.origin.wait == row.period {
      match flow.stage {
        case WritePatch(patched) =>
          assert CarriesFrom(flows'[id].origin.run, patched.data);
        case ReadForStart =>
          CarriesSurvives(flows, flows', row.period, row.data);
        case Claim(_) =>
          CarriesSurvives(flows, flows', row.period, row.data);
        case _ =>
      }
    }
  }

  lemma TakeoverAdded(
    row: Row, flows: map<FlowId, Flow>, id: FlowId, host: Host, snapshot: Snapshot, registers: bool)
    requires TakeoversCarry(row, flows) && row.status.Waiting? && Carries(flows, row.period, snapshot.data)
    ensures TakeoversCarry(TakeOver(row, id, host, snapshot, registers), flows)
  {
  }

  /** The data a takeover writes is the claimant's snapshot, which carries a result. */
  lemma RowAfterStillCarries(row: Row, flows: map<FlowId, Flow>, id: FlowId, outcome: Outcome)
    requires id in flows && FlowCarries(row, flows, flows[id])
    requires row.status.Waiting? && !flows[id].stage.Ended? ==> flows[id].origin.wait == row.period
    requires row.status.Waiting? ==> row.data.stack != []
    requires TakeoversCarry(row, flows)
    ensures var row' := RowAfter(row, id, flows[id], outcome);
            var flows' := flows[id := FlowAfter(row, flows[id], outcome)];
            && (row'.status.Waiting? ==> row'.data.stack != [] && row.status.Waiting? && row'.period == row.period)
            && (row'.data == row.data || !row'.status.Waiting? || Carries(flows', row'.period, row'.data))
            && TakeoversCarry(row', flows')
  {
    var flow := flows[id];
    var flows' := flows[id := FlowAfter(row, flow, outcome)];
    TakeoversStillCarry(row, flows, flows');
    match flow.stage {
      case WritePatch(patched) =>
        assert CarriesFrom(flows'[id].origin.run, patched.data);
      case Claim(snapshot) =>
        if row.status.Waiting? && TakesEffect(outcome) {
          CarriesSurvives(flows, flows', row.period, snapshot.data);
          TakeoverAdded(row, flows', id, flow.host, snapshot, Registers(outcome));
        }
      case _ =>
    }
  }

  lemma AdvanceKeepsCarry(s: State, id: FlowId, outcome: Outcome)
    requires CarryInv(s) && id in s.flows && Orderly(s, Advance(id, outcome))
    ensures CarryInv(Next(s, Advance(id, outcome)))
  {
    var s' := Next(s, Advance(id, outcome));
    RowAfterStillCarries(s.row, s.flows, id, outcome);
    forall other | other in s'.flows
      ensures FlowCarries(s'.row, s'.flows, s'.flows[other])
    {
      if other == id {
        AdvanceKeepsOwnFlow(s.row, s.flows, id, outcome);
      } else {
        OtherFlowStillCarries(s.row, s'.row, s.flows, s'.flows, s.flows[other]);
      }
    }
  }

  lemma StartKeepsCarry(s: State, id: FlowId, origin: Origin, host: Host)
    requires CarryInv(s) && Orderly(s, Start(id, origin, host))
    ensures CarryInv(Next(s, Start(id, origin, host)))
  {
    var s' := Next(s, Start(id, origin, host));
    TakeoversStillCarry(s.row, s.flows, s'.flows);
    forall other | other in s.flows
      ensures FlowCarries(s'.row, s'.flows, s'.flows[other])
    {
      OtherFlowStillCarries(s.row, s.row, s.flows, s'.flows, s.flows[other]);
    }
  }

  /** Starting, saving, finishing or cancelling the execution. */
  lemma RowNextKeepsCarry(s: State, step: Step)
    requires RowInv(s.row) && CarryInv(s) && Orderly(s, step) && !step.Start? && !step.Advance?
    ensures CarryInv(Next(s, step))
  {
    var s' := Next(s, step);
    forall id | id in s.flows
      ensures FlowCarries(s'.row, s'.flows, s'.flows[id])
    {
      if !s'.row.status.Waiting? || s.row.status.Waiting? {
        OtherFlowStillCarries(s.row, s'.row, s.flows, s.flows, s.flows[id]);
      } else {
        assert step.Park? && FlowCarries(s.row, s.flows, s.flows[id]);
      }
    }
  }

  lemma StepKeepsCarry(s: State, step: Step)
    requires RowInv(s.row) && CarryInv(s) && Orderly(s, step)
    ensures CarryInv(Next(s, step))
  {
    match step {
      case Start(id, origin, host) => StartKeepsCarry(s, id, origin, host);
      case Advance(id, outcome) =>
        if id in s.flows {
          AdvanceKeepsCarry(s, id, outcome);
        }
      case _ => RowNextKeepsCarry(s, step);
    }
  }

  lemma {:induction false} RunKeepsCarry(s: State, steps: seq<Step>)
    requires RowInv(s.row) && CarryInv(s) && OrderlyRun(s, steps)
    ensures CarryInv(Run(s, steps)) && NothingCarriesOver(s, steps)
    decreases |steps|
  {
    if steps != [] {
      if steps[0].Advance? && steps[0].id in s.flows {
        assert FlowCarries(s.row, s.flows, s.flows[steps[0].id]);
      }
      StepKeepsRow(s, steps[0]);
      StepKeepsCarry(s, steps[0]);
      RunKeepsCarry(Next(s, steps[0]), steps[1..]);
    }
  }

  /** However the reads, patch writes, re-reads and claims of a parent's children
      interleave and fail, every takeover of the parent writes what was saved for that
      wait, patched by children that reported, and its stack head shows the output or the
      error of some child of that wait, never only the original input. */
  lemma ResumedParentCarriesChildResult(s: State, steps: seq<Step>, i: nat)
    requires Initial(s) && OrderlyRun(s, steps) && i < |Run(s, steps).row.takeovers|
    ensures var t := Run(s, steps);
            var takeover := t.row.takeovers[i];
            && 0 < takeover.period <= |t.row.saved|
            && Descends(t.flows, t.row.saved[takeover.period - 1], takeover.data)
            && exists id :: id in t.flows && t.flows[id].origin.Child? && t.flows[id].origin.wait == takeover.period
                            && CarriesFrom(t.flows[id].origin.run, takeover.data)
  {
    InitialRow(s);
    RunKeepsCarry(s, steps);
    TakeoversPatchOwnWait(s, steps, i);
    var t := Run(s, steps);
    assert Carries(t.flows, t.row.takeovers[i].period, t.row.takeovers[i].data);
  }
}
