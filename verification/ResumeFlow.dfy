/** One flow as the code runs it: a method for each awaited segment, proved to be a step
    of the protocol, and the whole flow when nobody interferes. */
module ResumeFlow {
  import opened Wrappers
  import opened ParentPatch
  import opened ResumeProtocol
  import opened ResumeFlows
  import opened ExecutionStore
  import opened WaitTracker

  /** The shared row. Only status and data are stored; the rest is history. */
  class SharedRow {
    var status: Status
    var data: ParentData
    ghost var history: Row

    ghost function State(): Row
      reads this
    {
      history.(status := status, data := data)
    }

    constructor (ghost row: Row, status: Status, data: ParentData)
      requires row.status == status && row.data == data
      ensures State() == row
    {
      this.status, this.data, history := status, data, row;
    }

    method WriteData(data: ParentData, ghost savedFor: nat)
      modifies this
      ensures State() == old(State()).(data := data, savedFor := savedFor)
    {
      this.data := data;
      history := history.(savedFor := savedFor);
    }

    /** The conditional update of a row that must still be waiting. */
    method UpdateIfWaiting(
      ghost id: FlowId, ghost host: Host, data: ParentData, ghost snapshot: Snapshot, ghost registers: bool)
      returns (updated: bool)
      requires data == snapshot.data
      modifies this
      ensures updated <==> old(status).Waiting?
      ensures State() == TakeOver(old(State()), id, host, snapshot, registers)
    {
      if !status.Waiting? {
        return false;
      }
      history := TakeOver(State(), id, host, snapshot, registers);
      status, this.data := Running, data;
      return true;
    }
  }

  /** What the flow will do next. */
  datatype Phase = ReadingForPatch | WritingPatch | ReadingForStart | Claiming | Over(ok: bool)

  class ResumeFlow {
    const row: SharedRow
    const id: FlowId
    const origin: Origin
    const host: Host
    var phase: Phase
    var attempt: nat
    /** Data read or computed by the previous segment. */
    var pending: ParentData
    ghost var readIn: nat
    ghost var savedFor: nat

    ghost function FlowState(): Flow
      reads this
    {
      Flow(origin, host, attempt,
           match phase
           case ReadingForPatch => ReadForPatch
           case WritingPatch => WritePatch(Snapshot(pending, readIn, savedFor))
           case ReadingForStart => ReadForStart
           case Claiming => Claim(Snapshot(pending, readIn, savedFor))
           case Over(ok) => Ended(ok))
    }

    constructor (row: SharedRow, id: FlowId, origin: Origin, host: Host)
      ensures FlowState() == NewFlow(origin, host) && this.row == row && this.id == id
      ensures this.origin == origin && this.host == host
    {
      this.row, this.id, this.origin, this.host := row, id, origin, host;
      phase := if origin.Child? && HasResult(origin.run) then ReadingForPatch else ReadingForStart;
      attempt, pending := 1, ParentData([], map[], None);
    }

    /** The step group starts over after a transient failure, unless tries are used up. */
    method OnError(retryable: bool, restart: Phase)
      requires restart.ReadingForPatch? || restart.ReadingForStart?
      modifies this
      ensures FlowState() ==
              Retry(old(FlowState()), retryable, if restart.ReadingForPatch? then ReadForPatch else ReadForStart)
    {
      if attempt >= MaxAttempts(origin) || !retryable {
        phase := Over(false);
      } else {
        attempt, phase := attempt + 1, restart;
      }
    }

    method ReadParent(outcome: Outcome)
      requires phase.ReadingForPatch?
      modifies this
      ensures row.State() == RowAfter(old(row.State()), id, old(FlowState()), outcome)
      ensures FlowState() == FlowAfter(old(row.State()), old(FlowState()), outcome)
    {
      if outcome.Fails? {
        OnError(outcome.retryable, ReadingForPatch);
      } else if !row.status.Waiting? || |row.data.stack| == 0 || origin.Direct? {
        attempt, phase := 1, ReadingForStart;
      } else {
        pending, phase := Patch(origin.run, row.data), WritingPatch;
        readIn, savedFor := row.State().period, row.State().savedFor;
      }
    }

    method WriteParent(outcome: Outcome)
      requires phase.WritingPatch?
      modifies this, row
      ensures row.State() == RowAfter(old(row.State()), id, old(FlowState()), outcome)
      ensures FlowState() == FlowAfter(old(row.State()), old(FlowState()), outcome)
    {
      if outcome.Succeeds? || !outcome.effect.Nothing? {
        row.WriteData(pending, savedFor);
      }
      if outcome.Fails? {
        OnError(outcome.retryable, ReadingForPatch);
      } else {
        attempt, phase := 1, ReadingForStart;
      }
    }

    method ReadExecution(outcome: Outcome)
      requires phase.ReadingForStart?
      modifies this
      ensures row.State() == RowAfter(old(row.State()), id, old(FlowState()), outcome)
      ensures FlowState() == FlowAfter(old(row.State()), old(FlowState()), outcome)
    {
      if outcome.Fails? {
        OnError(outcome.retryable, ReadingForStart);
      } else if row.status.Success? {
        phase := Over(false);
      } else {
        pending, phase := row.data, Claiming;
        readIn, savedFor := row.State().period, row.State().savedFor;
      }
    }

    /** A claim that finds the row taken counts as success. */
    method ClaimExecution(outcome: Outcome) returns (claimed: bool)
      requires phase.Claiming?
      modifies this, row
      ensures row.State() == RowAfter(old(row.State()), id, old(FlowState()), outcome)
      ensures FlowState() == FlowAfter(old(row.State()), old(FlowState()), outcome)
      ensures claimed <==> TakesEffect(outcome) && old(row.status).Waiting?
    {
      claimed := false;
      if outcome.Succeeds? || !outcome.effect.Nothing? {
        claimed := row.UpdateIfWaiting(id, host, pending, Snapshot(pending, readIn, savedFor), Registers(outcome));
      }
      if outcome.Fails? {
        OnError(outcome.retryable, ReadingForStart);
      } else {
        phase := Over(true);
      }
    }

    /** One segment after another, the n-th turning out as `outcomes(n)`, until the flow is
        over: at most twelve segments, which leave the row as the protocol's run does. */
    method Resume(outcomes: nat -> Outcome) returns (n: nat, ok: bool)
      requires FlowState() == NewFlow(origin, host)
      modifies this, row
      ensures n <= 12 && FlowState().stage == Ended(ok)
      ensures (row.State(), FlowState()) == SoloRun(old(row.State()), id, NewFlow(origin, host), outcomes, n)
    {
      n := 0;
      while !phase.Over?
        invariant 1 <= attempt <= MaxAttempts(origin)
        invariant (row.State(), FlowState()) == SoloRun(old(row.State()), id, NewFlow(origin, host), outcomes, n)
        invariant n + StepsLeft(FlowState()) <= 12
        decreases StepsLeft(FlowState())
      {
        ghost var before := FlowState();
        ghost var rowBefore := row.State();
        match phase {
          case ReadingForPatch => ReadParent(outcomes(n));
          case WritingPatch => WriteParent(outcomes(n));
          case ReadingForStart => ReadExecution(outcomes(n));
          case Claiming => var _ := ClaimExecution(outcomes(n));
        }
        StepsRunOut(rowBefore, before, outcomes(n));
        n := n + 1;
      }
      ok := phase.ok;
    }
  }

  // ---- The protocol's flow with nobody interfering ----

  /** The first `n` steps of one flow that nobody interferes with. */
  function SoloRun(row: Row, id: FlowId, flow: Flow, outcomes: nat -> Outcome, n: nat): (Row, Flow) {
    if n == 0 then (row, flow)
    else
      var (r, f) := SoloRun(row, id, flow, outcomes, n - 1);
      (RowAfter(r, id, f, outcomes(n - 1)), FlowAfter(r, f, outcomes(n - 1)))
  }

  /** A protocol row as the stored row of a saved workflow. */
  ghost function Stored(row: Row): ExecutionRow {
    ExecutionRow(row.status, row.data, true, None)
  }

  /** Where an undisturbed flow has brought the row at each stage. */
  ghost predicate SoloInv(first: Row, child: ChildRun, row: Row, flow: Flow) {
    var was := Stored(first);
    var patched := Patched(was, child);
    && flow.origin.Child? && flow.origin.run == child
    && match flow.stage
       case ReadForPatch => Stored(row) in {was, patched} && HasResult(child)
       case WritePatch(patch) =>
         Stored(row) in {was, patched} && HasResult(child) && was.status.Waiting? && patched == was.(data := patch.data)
       case ReadForStart => Stored(row) in {patched, Started(patched)}
       case Claim(snapshot) =>
         && Stored(row) in {patched, Started(patched)}
         && (row.status.Waiting? ==> snapshot.data == patched.data)
       case Ended(ok) => Stored(row) in (if ok then {Started(patched)} else {was, patched, Started(patched)})
  }

  lemma SoloStep(first: Row, id: FlowId, child: ChildRun, row: Row, flow: Flow, outcome: Outcome)
    requires SoloInv(first, child, row, flow)
    ensures SoloInv(first, child, RowAfter(row, id, flow, outcome), FlowAfter(row, flow, outcome))
  {
    PatchedIdempotent(Stored(first), child);
  }

  lemma {:induction false} SoloSteps(row: Row, id: FlowId, origin: Origin, host: Host, outcomes: nat -> Outcome, n: nat)
    requires origin.Child?
    ensures var (row', flow') := SoloRun(row, id, NewFlow(origin, host), outcomes, n);
            SoloInv(row, origin.run, row', flow')
  {
    if n > 0 {
      SoloSteps(row, id, origin, host, outcomes, n - 1);
      var (r, f) := SoloRun(row, id, NewFlow(origin, host), outcomes, n - 1);
      SoloStep(row, id, origin.run, r, f, outcomes(n - 1));
    }
  }

  /** Whatever fails, a flow that nobody interferes with does to the row what the
      sequential resume does: patched and taken over exactly, if it ends without error;
      otherwise at most a part of that. */
  lemma SoloFlowIsSequentialResume(row: Row, id: FlowId, origin: Origin, host: Host, outcomes: nat -> Outcome, n: nat)
    requires origin.Child?
    ensures var (row', flow') := SoloRun(row, id, NewFlow(origin, host), outcomes, n);
            var patched := Patched(Stored(row), origin.run);
            && (flow'.stage == Ended(true) ==> Stored(row') == Started(patched))
            && (flow'.stage == Ended(false) ==> Stored(row') in {Stored(row), patched, Started(patched)})
  {
    SoloSteps(row, id, origin, host, outcomes, n);
  }

  // ---- When an undisturbed flow gives up ----

  function StageAt(row: Row, id: FlowId, flow: Flow, outcomes: nat -> Outcome, n: nat): Stage {
    SoloRun(row, id, flow, outcomes, n).1.stage
  }

  /** How many of the first `n` segments failed, in the group that embeds the results or in
      the one that resumes. */
  ghost function SoloFailures(row: Row, id: FlowId, flow: Flow, outcomes: nat -> Outcome, n: nat, patching: bool): nat {
    if n == 0 then 0
    else
      var stage := StageAt(row, id, flow, outcomes, n - 1);
      SoloFailures(row, id, flow, outcomes, n - 1, patching) +
      if !stage.Ended? && Patching(stage) == patching && outcomes(n - 1).Fails? then 1 else 0
  }

  /** One of the first `n` segments failed for good. */
  ghost predicate FailedForGood(row: Row, id: FlowId, flow: Flow, outcomes: nat -> Outcome, n: nat) {
    exists i :: 0 <= i < n && !StageAt(row, id, flow, outcomes, i).Ended? && outcomes(i).Fails? && !outcomes(i).retryable
  }

  /** What the failures so far say of the flow. */
  ghost predicate FailuresDecide(
    limit: nat, finished: bool, flow: Flow, patchFailures: nat, startFailures: nat, forGood: bool)
  {
    if flow.stage.Ended? then
      flow.stage.ok <==> !forGood && patchFailures < limit && startFailures < limit && !finished
    else
      && !forGood && patchFailures < limit && startFailures < limit
      && flow.attempt == 1 + (if Patching(flow.stage) then patchFailures else startFailures)
      && (Patching(flow.stage) ==> startFailures == 0)
      && (flow.stage.Claim? ==> !finished)
  }

  lemma FailuresStillDecide(
    row: Row, flow: Flow, outcome: Outcome, finished: bool, patchFailures: nat, startFailures: nat, forGood: bool)
    requires finished <==> row.status.Success?
    requires FailuresDecide(MaxAttempts(flow.origin), finished, flow, patchFailures, startFailures, forGood)
    ensures var counts := !flow.stage.Ended? && outcome.Fails?;
            FailuresDecide(
              MaxAttempts(flow.origin), finished, FlowAfter(row, flow, outcome),
              patchFailures + (if counts && Patching(flow.stage) then 1 else 0),
              startFailures + (if counts && !Patching(flow.stage) then 1 else 0),
              forGood || (counts && !outcome.retryable))
  {
  }

  lemma {:induction false} SoloFailuresDecide(
    row: Row, id: FlowId, origin: Origin, host: Host, outcomes: nat -> Outcome, n: nat)
    ensures var flow := NewFlow(origin, host);
            var (row', flow') := SoloRun(row, id, flow, outcomes, n);
            && (row'.status.Success? <==> row.status.Success?) && flow'.origin == origin
            && FailuresDecide(
                 MaxAttempts(origin), row.status.Success?, flow', SoloFailures(row, id, flow, outcomes, n, true),
                 SoloFailures(row, id, flow, outcomes, n, false), FailedForGood(row, id, flow, outcomes, n))
  {
    var flow := NewFlow(origin, host);
    if n > 0 {
      SoloFailuresDecide(row, id, origin, host, outcomes, n - 1);
      var (r, f) := SoloRun(row, id, flow, outcomes, n - 1);
      FailuresStillDecide(
        r, f, outcomes(n - 1), row.status.Success?, SoloFailures(row, id, flow, outcomes, n - 1, true),
        SoloFailures(row, id, flow, outcomes, n - 1, false), FailedForGood(row, id, flow, outcomes, n - 1));
      FailedForGoodGrows(row, id, flow, outcomes, n);
    }
  }

  lemma FailedForGoodGrows(row: Row, id: FlowId, flow: Flow, outcomes: nat -> Outcome, n: nat)
    requires n > 0
    ensures FailedForGood(row, id, flow, outcomes, n) <==>
            || FailedForGood(row, id, flow, outcomes, n - 1)
            || (!StageAt(row, id, flow, outcomes, n - 1).Ended? && outcomes(n - 1).Fails? && !outcomes(n - 1).retryable)
  {
  }

  /** An undisturbed flow that has ended has given up exactly if a segment failed for good,
      one of its two groups failed three times, or the row is finished. Otherwise, so with
      up to two transient failures in each group, the row has been patched and taken over. */
  lemma SoloGivesUpExactlyWhen(row: Row, id: FlowId, origin: Origin, host: Host, outcomes: nat -> Outcome, n: nat)
    requires origin.Child? && StageAt(row, id, NewFlow(origin, host), outcomes, n).Ended?
    ensures var flow := NewFlow(origin, host);
            var (row', flow') := SoloRun(row, id, flow, outcomes, n);
            var gaveUp := || (exists i :: 0 <= i < n && !StageAt(row, id, flow, outcomes, i).Ended?
                                          && outcomes(i).Fails? && !outcomes(i).retryable)
                          || SoloFailures(row, id, flow, outcomes, n, true) >= 3
                          || SoloFailures(row, id, flow, outcomes, n, false) >= 3
                          || row.status.Success?;
            && (flow'.stage == Ended(false) <==> gaveUp)
            && (!gaveUp ==> flow'.stage == Ended(true) && Stored(row') == Started(Patched(Stored(row), origin.run)))
  {
    SoloFailuresDecide(row, id, origin, host, outcomes, n);
    SoloFlowIsSequentialResume(row, id, origin, host, outcomes, n);
    assert StageAt(row, id, NewFlow(origin, host), outcomes, n) == SoloRun(row, id, NewFlow(origin, host), outcomes, n).1.stage;
  }

  /** The run of a patch write that fails once: it is tried again, and the parent resumed. */
  lemma FailedPatchIsTriedAgain(row: Row, id: FlowId, child: ChildRun, wait: nat, host: Host, effect: Effect)
    requires row.status.Waiting? && row.data.stack != [] && HasResult(child)
    ensures var outcomes := (i: nat) => if i == 1 then Fails(effect, true) else Succeeds;
            var (row', flow') := SoloRun(row, id, NewFlow(Child(child, wait), host), outcomes, 6);
            && flow'.stage == Ended(true)
            && Stored(row') == Started(Patched(Stored(row), child))
  {
    var outcomes := (i: nat) => if i == 1 then Fails(effect, true) else Succeeds;
    var flow := NewFlow(Child(child, wait), host);
    var (r2, f2) := SoloRun(row, id, flow, outcomes, 2);
    var (r1, f1) := SoloRun(row, id, flow, outcomes, 1);
    assert SoloRun(row, id, flow, outcomes, 0) == (row, flow);
    assert r1 == row && f1.stage.WritePatch? && f1.attempt == 1 && f1.origin == flow.origin;
    assert (r2, f2) == (RowAfter(r1, id, f1, Fails(effect, true)), FlowAfter(r1, f1, Fails(effect, true)));
    assert f2.stage.ReadForPatch? && f2.attempt == 2 && r2.status.Waiting? && r2.data.stack != [];
    assert SoloRun(row, id, flow, outcomes, 3).1.stage.WritePatch?;
    assert SoloRun(row, id, flow, outcomes, 4).1.stage.ReadForStart?;
    assert SoloRun(row, id, flow, outcomes, 5).1.stage.Claim?;
    SoloFlowIsSequentialResume(row, id, Child(child, wait), host, outcomes, 6);
  }
}
