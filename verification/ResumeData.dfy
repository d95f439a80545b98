/** Where the data of a waiting row comes from: data read in one wait can be written in a
    later one, by a patch as well as by a takeover. */
module ResumeData {
  import opened Wrappers
  import opened ParentPatch
  import opened ResumeProtocol

  // ---- Data descends from what was saved ----

  /** Some flow of the run reported this child. */
  ghost predicate Reported(flows: map<FlowId, Flow>, child: ChildRun) {
    exists id :: id in flows && flows[id].origin.Child? && flows[id].origin.run == child
  }

  /** The patches of these children, in order, on data that may have an empty stack. */
  function Patches(children: seq<ChildRun>, d: ParentData): ParentData {
    if d.stack == [] then d else PatchAll(children, d)
  }

  ghost predicate Descends(flows: map<FlowId, Flow>, saved: ParentData, d: ParentData) {
    exists children :: (forall c :: c in children ==> Reported(flows, c)) && d == Patches(children, saved)
  }

  /** The data is what was saved for that period, patched by reported children. */
  ghost predicate Derived(flows: map<FlowId, Flow>, saved: seq<ParentData>, savedFor: nat, d: ParentData) {
    savedFor == 0 || (savedFor <= |saved| && Descends(flows, saved[savedFor - 1], d))
  }

  ghost predicate Pending(stage: Stage) {
    stage.WritePatch? || stage.Claim?
  }

  ghost predicate FlowDerived(row: Row, flows: map<FlowId, Flow>, flow: Flow) {
    && (flow.stage.ReadForPatch? && flow.origin.Child? ==> HasResult(flow.origin.run))
    && (flow.stage.WritePatch? ==> flow.origin.Child? && HasResult(flow.origin.run))
    && (Pending(flow.stage) ==>
          && flow.stage.pending.savedFor <= flow.stage.pending.readIn <= row.period
          && Derived(flows, row.saved, flow.stage.pending.savedFor, flow.stage.pending.data))
  }

  ghost predicate DerivedInv(s: State) {
    && |s.row.saved| == s.row.period && s.row.savedFor <= s.row.period
    && Derived(s.flows, s.row.saved, s.row.savedFor, s.row.data)
    && (forall id :: id in s.flows ==> FlowDerived(s.row, s.flows, s.flows[id]))
    && (forall i :: 0 <= i < |s.row.takeovers| ==>
          Derived(s.flows, s.row.saved, s.row.takeovers[i].savedFor, s.row.takeovers[i].data))
  }

  /** Flows keep their origin and saved data is only added, so what was derived stays so. */
  ghost predicate Extends(flows: map<FlowId, Flow>, flows': map<FlowId, Flow>) {
    forall id :: id in flows ==> id in flows' && flows'[id].origin == flows[id].origin
  }

  lemma DerivedSurvives(
    flows: map<FlowId, Flow>, flows': map<FlowId, Flow>, saved: seq<ParentData>, saved': seq<ParentData>,
    savedFor: nat, d: ParentData)
    requires Extends(flows, flows') && saved <= saved' && Derived(flows, saved, savedFor, d)
    ensures Derived(flows', saved', savedFor, d)
  {
    if savedFor > 0 {
      var children :| (forall c :: c in children ==> Reported(flows, c)) && d == Patches(children, saved[savedFor - 1]);
      forall c | c in children
        ensures Reported(flows', c)
      {
        assert Reported(flows, c);
      }
    }
  }

  lemma SavedIsDerived(flows: map<FlowId, Flow>, saved: seq<ParentData>, d: ParentData)
    ensures Derived(flows, saved + [d], |saved| + 1, d)
  {
    assert Patches([], d) == d;
  }

  lemma PatchedIsDerived(flows: map<FlowId, Flow>, saved: seq<ParentData>, savedFor: nat, d: ParentData, child: ChildRun)
    requires Derived(flows, saved, savedFor, d) && d.stack != [] && HasResult(child) && Reported(flows, child)
    ensures Derived(flows, saved, savedFor, Patch(child, d))
  {
    if savedFor > 0 {
      var children :| (forall c :: c in children ==> Reported(flows, c)) && d == Patches(children, saved[savedFor - 1]);
      var more := children + [child];
      assert more[..|more| - 1] == children && more[|more| - 1] == child;
      assert Patches(more, saved[savedFor - 1]) == Patch(child, d);
    }
  }

  lemma OwnFlowStaysDerived(s: State, id: FlowId, outcome: Outcome)
    requires DerivedInv(s) && id in s.flows
    ensures FlowDerived(s.row, s.flows, FlowAfter(s.row, s.flows[id], outcome))
  {
    var flow := s.flows[id];
    assert FlowDerived(s.row, s.flows, flow);
    if flow.stage.ReadForPatch? && FlowAfter(s.row, flow, outcome).stage.WritePatch? {
      assert Reported(s.flows, flow.origin.run);
      PatchedIsDerived(s.flows, s.row.saved, s.row.savedFor, s.row.data, flow.origin.run);
    }
  }

  /** Everything known of the old row and flows, seen from the new ones. */
  lemma DerivedCarriesOver(s: State, row: Row, flows: map<FlowId, Flow>, flow: Flow)
    requires Extends(s.flows, flows) && s.row.saved <= row.saved && s.row.period <= row.period
    requires FlowDerived(s.row, s.flows, flow)
    ensures FlowDerived(row, flows, flow)
  {
    if Pending(flow.stage) {
      DerivedSurvives(s.flows, flows, s.row.saved, row.saved, flow.stage.pending.savedFor, flow.stage.pending.data);
    }
  }

  lemma TakeoversCarryOver(s: State, flows: map<FlowId, Flow>, saved: seq<ParentData>)
    requires DerivedInv(s) && Extends(s.flows, flows) && s.row.saved <= saved
    ensures forall i :: 0 <= i < |s.row.takeovers| ==>
              Derived(flows, saved, s.row.takeovers[i].savedFor, s.row.takeovers[i].data)
    ensures Derived(flows, saved, s.row.savedFor, s.row.data)
  {
    forall i | 0 <= i < |s.row.takeovers|
      ensures Derived(flows, saved, s.row.takeovers[i].savedFor, s.row.takeovers[i].data)
    {
      DerivedSurvives(s.flows, flows, s.row.saved, saved, s.row.takeovers[i].savedFor, s.row.takeovers[i].data);
    }
    DerivedSurvives(s.flows, flows, s.row.saved, saved, s.row.savedFor, s.row.data);
  }

  lemma AdvanceKeepsDerived(s: State, id: FlowId, outcome: Outcome)
    requires DerivedInv(s) && id in s.flows
    ensures DerivedInv(Next(s, Advance(id, outcome)))
  {
    var s' := Next(s, Advance(id, outcome));
    var flow := s.flows[id];
    assert FlowDerived(s.row, s.flows, flow);
    TakeoversCarryOver(s, s'.flows, s.row.saved);
    OwnFlowStaysDerived(s, id, outcome);
    if Pending(flow.stage) {
      DerivedSurvives(s.flows, s'.flows, s.row.saved, s.row.saved, flow.stage.pending.savedFor, flow.stage.pending.data);
    }
    forall other | other in s'.flows
      ensures FlowDerived(s'.row, s'.flows, s'.flows[other])
    {
      DerivedCarriesOver(s, s'.row, s'.flows, s'.flows[other]);
    }
  }

  /** Only a wait's beginning saves data, and it dates later than everything read before. */
  lemma SavedGrows(s: State, step: Step)
    ensures var row := Next(s, step).row;
            || (row.saved == s.row.saved && row.period == s.row.period
                && (row.status.Waiting? ==> s.row.status.Waiting?))
            || (step.Park? && row.saved == s.row.saved + [step.data] && row.period == s.row.period + 1
                && row.data == step.data && row.savedFor == row.period && Next(s, step).flows == s.flows)
  {
  }

  lemma OtherStepsData(s: State, step: Step)
    requires !step.Advance?
    ensures var row := Next(s, step).row;
            && row.takeovers == s.row.takeovers
            && (row.period == s.row.period ==> row.savedFor == 0 || (row.savedFor == s.row.savedFor && row.data == s.row.data))
  {
  }

  lemma OtherStepsKeepDerived(s: State, step: Step)
    requires DerivedInv(s) && !step.Advance?
    ensures DerivedInv(Next(s, step))
  {
    var s' := Next(s, step);
    SavedGrows(s, step);
    OtherStepsData(s, step);
    TakeoversCarryOver(s, s'.flows, s'.row.saved);
    if s'.row.period > s.row.period {
      SavedIsDerived(s'.flows, s.row.saved, s'.row.data);
    }
    forall id | id in s'.flows
      ensures FlowDerived(s'.row, s'.flows, s'.flows[id])
    {
      if id in s.flows {
        DerivedCarriesOver(s, s'.row, s'.flows, s'.flows[id]);
      }
    }
  }

  /** Whatever happens, data that is traced back to a wait is what was saved for it,
      patched by children that reported. */
  lemma {:induction false} RunKeepsDerived(s: State, steps: seq<Step>)
    requires DerivedInv(s)
    ensures DerivedInv(Run(s, steps))
    decreases |steps|
  {
    if steps != [] {
      if steps[0].Advance? {
        if steps[0].id in s.flows {
          AdvanceKeepsDerived(s, steps[0].id, steps[0].outcome);
        }
      } else {
        OtherStepsKeepDerived(s, steps[0]);
      }
      RunKeepsDerived(Next(s, steps[0]), steps[1..]);
    }
  }

  // ---- Which steps carry data into another wait ----

  /** A waiting row receives data read in another wait. A caller could check this before
      the write, which compares no more than the status, and a patch not even that. */
  predicate CarriesOver(s: State, step: Step) {
    && step.Advance? && step.id in s.flows && TakesEffect(step.outcome) && s.row.status.Waiting?
    && (s.flows[step.id].stage.WritePatch? || s.flows[step.id].stage.Claim?)
    && s.flows[step.id].stage.pending.readIn != s.row.period
  }

  /** A waiting row, and every takeover there has been, hold data of their own wait. */
  predicate OwnData(row: Row) {
    && (row.status.Waiting? ==> row.savedFor == row.period)
    && forall i :: 0 <= i < |row.takeovers| ==> row.takeovers[i].savedFor == row.takeovers[i].period
  }

  /** While the row waits, what was read in this wait is data of this wait. */
  ghost predicate OwnReads(s: State) {
    forall id :: id in s.flows && Pending(s.flows[id].stage) && s.row.status.Waiting?
                 && s.flows[id].stage.pending.readIn == s.row.period ==>
      s.flows[id].stage.pending.savedFor == s.row.period
  }

  lemma AdvanceOwnData(s: State, id: FlowId, outcome: Outcome)
    requires DerivedInv(s) && OwnData(s.row) && OwnReads(s) && id in s.flows
    ensures OwnData(Next(s, Advance(id, outcome)).row) <==> !CarriesOver(s, Advance(id, outcome))
  {
    var flow := s.flows[id];
    assert FlowDerived(s.row, s.flows, flow);
    var row' := Next(s, Advance(id, outcome)).row;
    if flow.stage.Claim? && TakesEffect(outcome) && s.row.status.Waiting? {
      var n := |s.row.takeovers|;
      assert row'.takeovers[n] == Takeover(s.row.period, id, flow.stage.pending.data, flow.stage.pending.savedFor);
      assert forall i :: 0 <= i < n ==> row'.takeovers[i] == s.row.takeovers[i];
    }
  }

  lemma StepOwnData(s: State, step: Step)
    requires DerivedInv(s) && OwnData(s.row) && OwnReads(s)
    ensures OwnData(Next(s, step).row) <==> !CarriesOver(s, step)
    ensures !CarriesOver(s, step) ==> OwnReads(Next(s, step))
  {
    if step.Advance? && step.id in s.flows {
      AdvanceOwnData(s, step.id, step.outcome);
    }
    if !CarriesOver(s, step) {
      StepOwnReads(s, step);
    }
  }

  /** What the flow reads while the row waits is data of this wait. */
  lemma OwnRead(row: Row, flow: Flow, outcome: Outcome)
    requires OwnData(row) && row.status.Waiting? && Pending(FlowAfter(row, flow, outcome).stage)
    ensures var flow' := FlowAfter(row, flow, outcome);
            flow'.stage.pending.savedFor == row.period || (Pending(flow.stage) && flow' == flow)
  {
  }

  lemma StepOwnReads(s: State, step: Step)
    requires DerivedInv(s) && OwnData(s.row) && OwnReads(s)
    ensures OwnReads(Next(s, step))
  {
    var s' := Next(s, step);
    SavedGrows(s, step);
    forall id | id in s'.flows && Pending(s'.flows[id].stage) && s'.row.status.Waiting?
                && s'.flows[id].stage.pending.readIn == s'.row.period
      ensures s'.flows[id].stage.pending.savedFor == s'.row.period
    {
      if step.Advance? && step.id == id {
        OwnRead(s.row, s.flows[id], step.outcome);
      } else if id in s.flows {
        assert FlowDerived(s.row, s.flows, s.flows[id]);
      }
    }
  }

  /** At every point of the run, waiting rows and takeovers hold data of their own wait. */
  ghost predicate AlwaysOwnData(s: State, steps: seq<Step>)
    decreases |steps|
  {
    OwnData(s.row) && (steps == [] || AlwaysOwnData(Next(s, steps[0]), steps[1..]))
  }

  /** No step of the run carries data into another wait. */
  ghost predicate NothingCarriesOver(s: State, steps: seq<Step>)
    decreases |steps|
  {
    steps == [] || (!CarriesOver(s, steps[0]) && NothingCarriesOver(Next(s, steps[0]), steps[1..]))
  }

  lemma {:induction false} OwnDataFrom(s: State, steps: seq<Step>)
    requires DerivedInv(s) && OwnData(s.row) && OwnReads(s)
    ensures AlwaysOwnData(s, steps) <==> NothingCarriesOver(s, steps)
    decreases |steps|
  {
    if steps != [] {
      StepOwnData(s, steps[0]);
      RunKeepsDerived(s, [steps[0]]);
      RunOne(s, steps[0]);
      if !CarriesOver(s, steps[0]) {
        OwnDataFrom(Next(s, steps[0]), steps[1..]);
      }
    }
  }

  /** A waiting row or a takeover comes to hold data of another wait exactly if some patch
      write or claim takes effect on a waiting row with data read in another wait. */
  lemma OwnDataExactlyWhen(s: State, steps: seq<Step>)
    requires Initial(s)
    ensures AlwaysOwnData(s, steps) <==> NothingCarriesOver(s, steps)
  {
    InitialData(s);
    OwnDataFrom(s, steps);
  }

  lemma InitialData(s: State)
    requires Initial(s)
    ensures DerivedInv(s) && OwnData(s.row) && OwnReads(s)
  {
  }

  lemma {:induction false} OwnDataAtEnd(s: State, steps: seq<Step>)
    requires AlwaysOwnData(s, steps)
    ensures OwnData(Run(s, steps).row)
    decreases |steps|
  {
    if steps != [] {
      OwnDataAtEnd(Next(s, steps[0]), steps[1..]);
    }
  }

  /** In such runs every takeover writes exactly what was saved for its own wait, patched by
      children that reported, one after another. */
  lemma TakeoversPatchOwnWait(s: State, steps: seq<Step>, i: nat)
    requires Initial(s) && NothingCarriesOver(s, steps) && i < |Run(s, steps).row.takeovers|
    ensures var t := Run(s, steps);
            var takeover := t.row.takeovers[i];
            && 0 < takeover.period <= |t.row.saved|
            && Descends(t.flows, t.row.saved[takeover.period - 1], takeover.data)
  {
    OwnDataExactlyWhen(s, steps);
    OwnDataAtEnd(s, steps);
    InitialData(s);
    RunKeepsDerived(s, steps);
    InitialRow(s);
    RunKeepsRow(s, steps);
    var t := Run(s, steps);
    var takeover := t.row.takeovers[i];
    assert Derived(t.flows, t.row.saved, takeover.savedFor, takeover.data);
    assert Descends(t.flows, t.row.saved[takeover.period - 1], takeover.data);
  }

  /** Step `n` of the run saved the row as waiting, with this data, for this period. */
  ghost predicate SavedAt(s: State, steps: seq<Step>, n: nat, period: nat, d: ParentData) {
    && n < |steps| && steps[n].Park? && steps[n].data == d
    && Run(s, steps[..n]).row.period + 1 == Run(s, steps[..n + 1]).row.period == period
  }

  /** What counts as saved for a period is what some step of the run saved to begin it. */
  lemma {:induction false} SavedByPark(s: State, steps: seq<Step>, period: nat) returns (n: nat)
    requires Initial(s) && 0 < period <= |Run(s, steps).row.saved|
    ensures SavedAt(s, steps, n, period, Run(s, steps).row.saved[period - 1])
    decreases |steps|
  {
    var last := |steps| - 1;
    var before := Run(s, steps[..last]);
    RunLast(s, steps, last);
    assert steps[..last + 1] == steps;
    InitialData(s);
    RunKeepsDerived(s, steps[..last]);
    SavedGrows(before, steps[last]);
    if period <= |before.row.saved| {
      n := SavedByPark(s, steps[..last], period);
      assert steps[..last][..n] == steps[..n] && steps[..last][..n + 1] == steps[..n + 1];
    } else {
      n := last;
    }
  }

  // ---- The read behind pending data ----

  /** Step `k` is the last one of that flow. */
  ghost predicate LastStepAt(steps: seq<Step>, id: FlowId, k: nat) {
    && k < |steps| && steps[k] == Advance(id, Succeeds)
    && forall j :: k < j < |steps| ==> !(steps[j].Advance? && steps[j].id == id)
  }

  /** A step after which data is pending has just read it. */
  lemma PendingWasJustRead(s: State, id: FlowId, outcome: Outcome)
    requires id in s.flows && Pending(FlowAfter(s.row, s.flows[id], outcome).stage)
    ensures outcome.Succeeds?
    ensures var flow := FlowAfter(s.row, s.flows[id], outcome);
            && flow.stage.pending.readIn == s.row.period && flow.stage.pending.savedFor == s.row.savedFor
            && (flow.stage.Claim? ==> flow.stage.pending.data == s.row.data)
            && (flow.stage.WritePatch? ==>
                  s.row.data.stack != [] && flow.origin.Child? && flow.stage.pending.data == Patch(flow.origin.run, s.row.data))
  {
  }

  /** What a flow is about to write is what its last step read, patched by its own child if
      it is a patch, with the wait the row was in at that read. */
  lemma {:induction false} PendingRemembersItsRead(s: State, steps: seq<Step>, id: FlowId) returns (k: nat)
    requires Initial(s) && id in Run(s, steps).flows && Pending(Run(s, steps).flows[id].stage)
    ensures LastStepAt(steps, id, k)
    ensures var flow := Run(s, steps).flows[id];
            var read := Run(s, steps[..k]).row;
            && flow.stage.pending.readIn == read.period && flow.stage.pending.savedFor == read.savedFor
            && (flow.stage.Claim? ==> flow.stage.pending.data == read.data)
            && (flow.stage.WritePatch? ==>
                  read.data.stack != [] && flow.origin.Child? && flow.stage.pending.data == Patch(flow.origin.run, read.data))
    decreases |steps|
  {
    var n := |steps| - 1;
    RunLast(s, steps, n);
    assert steps[..n + 1] == steps;
    if steps[n].Advance? && steps[n].id == id {
      k := n;
      PendingWasJustRead(Run(s, steps[..n]), id, steps[n].outcome);
    } else {
      k := PendingRemembersItsRead(s, steps[..n], id);
      assert steps[..n][..k] == steps[..k];
      forall j | k < j < |steps|
        ensures !(steps[j].Advance? && steps[j].id == id)
      {
        assert j < n ==> steps[..n][j] == steps[j];
      }
    }
  }
}
