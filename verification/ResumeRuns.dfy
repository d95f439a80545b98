/** Runs from the start that show what the hypotheses on children's results are for, and
    how data is carried from one wait into the next. */
module ResumeRuns {
  import opened Wrappers
  import opened ParentPatch
  import opened ResumeProtocol
  import opened ResumeData
  import opened ResumeResults

  /** The whole life of an execution that waits for a child: started, saved as waiting,
      patched and resumed by the child, and finished with the data of its end. */
  lemma WholeLife(s: State, first: ParentData, child: ChildRun, host: Host, mid: ParentData, result: ParentData)
    requires Initial(s) && HasResult(child) && first.stack != []
    ensures var t := Run(s, FirstWait(first, Child(child, 1), host) + ThreeSteps + [Advance(0, Succeeds)] +
                            [MarkRunning(Some(0), Confirmed), SaveProgress(Some(0), mid), Finish(Some(0), Completed, result)]);
            && t.row.status.Success? && t.row.data == result && t.row.executing == map[] && t.row.period == 1
            && t.row.takeovers == [Takeover(1, 0, Patch(child, first), 1)]
            && 0 in t.flows && t.flows[0].stage == Ended(true)
  {
    var before := FirstWait(first, Child(child, 1), host) + ThreeSteps;
    var last := [MarkRunning(Some(0), Confirmed), SaveProgress(Some(0), mid), Finish(Some(0), Completed, result)];
    ReadyToClaim(s, first, child, 1, host);
    var ready := Run(s, before);
    RunAppend(s, before, [Advance(0, Succeeds)]);
    RunAppend(s, before + [Advance(0, Succeeds)], last);
    RunOne(ready, Advance(0, Succeeds));
    var claimed := Next(ready, Advance(0, Succeeds));
    assert claimed.row.executing == map[Some(0) := Engine(host, false)] && claimed.row.status.Running?;
    ResumedRunFinishes(claimed, Some(0), host, mid, result);
  }

  lemma ResumedRunFinishes(s: State, executor: Executor, host: Host, mid: ParentData, result: ParentData)
    requires s.row.status.Running? && s.row.executing == map[executor := Engine(host, false)]
    ensures var t := Run(s, [MarkRunning(executor, Confirmed), SaveProgress(executor, mid), Finish(executor, Completed, result)]);
            && t.row.status.Success? && t.row.data == result && t.row.executing == map[]
            && t.row.period == s.row.period && t.row.takeovers == s.row.takeovers && t.flows == s.flows
  {
    var marked := Next(s, MarkRunning(executor, Confirmed));
    assert marked.row.executing == map[executor := Engine(host, true)];
    MarkedRunFinishes(marked, executor, host, mid, result);
    RunThree(s, MarkRunning(executor, Confirmed), SaveProgress(executor, mid), Finish(executor, Completed, result));
  }

  lemma MarkedRunFinishes(s: State, executor: Executor, host: Host, mid: ParentData, result: ParentData)
    requires s.row.status.Running? && s.row.executing == map[executor := Engine(host, true)]
    ensures var t := Next(Next(s, SaveProgress(executor, mid)), Finish(executor, Completed, result));
            && t.row.status.Success? && t.row.data == result && t.row.executing == map[]
            && t.row.period == s.row.period && t.row.takeovers == s.row.takeovers && t.flows == s.flows
  {
  }

  /** A timer or webhook, a child without a result, or a parent saved with an empty stack:
      the takeover writes the data as it was saved. */
  lemma UnpatchedClaim(s: State, first: ParentData, origin: Origin, host: Host)
    requires Initial(s)
    requires origin.Direct? || !HasResult(origin.run) || first.stack == []
    ensures var t := Run(s, FirstWait(first, origin, host) + ThreeSteps);
            t.row.takeovers == [Takeover(1, 0, first, 1)] && !Carries(t.flows, 1, first)
  {
    RunAppend(s, FirstWait(first, origin, host), ThreeSteps);
    FirstWaitReached(s, first, origin, host);
    var t := Run(s, FirstWait(first, origin, host));
    RunThree(t, Advance(0, Succeeds), Advance(0, Succeeds), Advance(0, Succeeds));
    assert Run(t, ThreeSteps).flows.Keys == {0};
  }

  /** A child of another wait: the takeover shows nothing of a child of this one. */
  lemma ChildOfAnotherWaitClaims(s: State, first: ParentData, child: ChildRun, wait: nat, host: Host)
    requires Initial(s) && HasResult(child) && first.stack != [] && wait != 1
    ensures var t := Run(s, FirstWait(first, Child(child, wait), host) + ThreeSteps + [Advance(0, Succeeds)]);
            t.row.takeovers == [Takeover(1, 0, Patch(child, first), 1)] && !Carries(t.flows, 1, Patch(child, first))
  {
    var before := FirstWait(first, Child(child, wait), host) + ThreeSteps;
    RunAppend(s, before, [Advance(0, Succeeds)]);
    ReadyToClaim(s, first, child, wait, host);
    RunOne(Run(s, before), Advance(0, Succeeds));
    assert Next(Run(s, before), Advance(0, Succeeds)).flows.Keys == {0};
  }

  /** The run of a child that begins to report before its wait is saved. */
  function EarlyReader(first: ParentData, child: ChildRun, host: Host): seq<Step> {
    [Begin(Main, Some(Confirmed)), MarkRunning(None, Confirmed), Start(0, Child(child, 1), host)] +
    [Advance(0, Succeeds), Park(None, first)]
  }

  lemma EarlyReaderMissesThePatch(s: State, first: ParentData, child: ChildRun, host: Host)
    requires Initial(s) && HasResult(child)
    ensures var t := Run(s, EarlyReader(first, child, host));
            && t.row.status.Waiting? && t.row.period == 1 && t.row.data == first && t.row.savedFor == 1
            && t.row.takeovers == [] && t.flows == map[0 := Flow(Child(child, 1), host, 1, ReadForStart)]
  {
    var p1 := [Begin(Main, Some(Confirmed)), MarkRunning(None, Confirmed), Start(0, Child(child, 1), host)];
    RunAppend(s, p1, [Advance(0, Succeeds), Park(None, first)]);
    RunThree(s, Begin(Main, Some(Confirmed)), MarkRunning(None, Confirmed), Start(0, Child(child, 1), host));
    RunTwo(Run(s, p1), Advance(0, Succeeds), Park(None, first));
  }

  /** It skips its patch, but claims that wait: the takeover writes the data as it was
      saved. */
  lemma EarlyReaderSkipsItsPatch(s: State, first: ParentData, child: ChildRun, host: Host)
    requires Initial(s) && HasResult(child)
    ensures var t := Run(s, EarlyReader(first, child, host) + [Advance(0, Succeeds), Advance(0, Succeeds)]);
            t.row.takeovers == [Takeover(1, 0, first, 1)] && (Carries(t.flows, 1, first) <==> CarriesFrom(child, first))
  {
    var before := EarlyReader(first, child, host);
    RunAppend(s, before, [Advance(0, Succeeds), Advance(0, Succeeds)]);
    EarlyReaderMissesThePatch(s, first, child, host);
    RunTwo(Run(s, before), Advance(0, Succeeds), Advance(0, Succeeds));
    var t := Run(s, before + [Advance(0, Succeeds), Advance(0, Succeeds)]);
    assert t.flows.Keys == {0} && t.flows[0].origin == Child(child, 1);
  }

  // ---- Data carried into the next wait ----

  /** Both children have read the waiting parent; the first has patched it and is about to
      read it again, the second is about to write its patch. */
  ghost predicate OnePatched(s: State, a: ChildRun, b: ChildRun, first: ParentData, host: Host)
    requires first.stack != []
  {
    && s.row.status.Waiting? && s.row.period == 1 && s.row.takeovers == [] && s.row.executing == map[]
    && s.row.data == Patch(a, first) && s.row.savedFor == 1
    && s.flows == map[0 := Flow(Child(a, 1), host, 1, ReadForStart),
                      1 := Flow(Child(b, 1), host, 1, WritePatch(Snapshot(Patch(b, first), 1, 1)))]
  }

  function TwoReads(first: ParentData, a: ChildRun, b: ChildRun, host: Host): seq<Step> {
    FirstWait(first, Child(a, 1), host) + [Start(1, Child(b, 1), host), Advance(0, Succeeds), Advance(1, Succeeds)] +
    [Advance(0, Succeeds)]
  }

  /** A child's first step on the waiting parent. */
  lemma ChildReads(s: State, id: FlowId, child: ChildRun, wait: nat, host: Host)
    requires id in s.flows && s.flows[id] == NewFlow(Child(child, wait), host) && HasResult(child)
    requires s.row.status.Waiting? && s.row.data.stack != []
    ensures Next(s, Advance(id, Succeeds)) == s.(flows := s.flows[id :=
              Flow(Child(child, wait), host, 1, WritePatch(Snapshot(Patch(child, s.row.data), s.row.period, s.row.savedFor)))])
  {
  }

  /** Two children read the waiting parent, one after the other. */
  lemma BothRead(s: State, a: ChildRun, b: ChildRun, first: ParentData, host: Host)
    requires HasResult(a) && HasResult(b) && first.stack != []
    requires s.row.status.Waiting? && s.row.period == 1 && s.row.data == first && s.row.savedFor == 1
    requires s.flows == map[0 := NewFlow(Child(a, 1), host)]
    ensures var t := Run(s, [Start(1, Child(b, 1), host), Advance(0, Succeeds), Advance(1, Succeeds)]);
            && t.row == s.row
            && t.flows == map[0 := Flow(Child(a, 1), host, 1, WritePatch(Snapshot(Patch(a, first), 1, 1))),
                              1 := Flow(Child(b, 1), host, 1, WritePatch(Snapshot(Patch(b, first), 1, 1)))]
  {
    var started := Next(s, Start(1, Child(b, 1), host));
    assert started.row == s.row && started.flows == map[0 := NewFlow(Child(a, 1), host), 1 := NewFlow(Child(b, 1), host)];
    ChildReads(started, 0, a, 1, host);
    var once := Next(started, Advance(0, Succeeds));
    assert once.row == s.row && once.flows[1] == NewFlow(Child(b, 1), host);
    ChildReads(once, 1, b, 1, host);
    RunThree(s, Start(1, Child(b, 1), host), Advance(0, Succeeds), Advance(1, Succeeds));
  }

  lemma FirstPatchIsWritten(s: State, a: ChildRun, b: ChildRun, first: ParentData, host: Host)
    requires first.stack != []
    requires s.row.status.Waiting? && s.row.period == 1 && s.row.takeovers == [] && s.row.executing == map[]
    requires s.flows == map[0 := Flow(Child(a, 1), host, 1, WritePatch(Snapshot(Patch(a, first), 1, 1))),
                            1 := Flow(Child(b, 1), host, 1, WritePatch(Snapshot(Patch(b, first), 1, 1)))]
    ensures OnePatched(Next(s, Advance(0, Succeeds)), a, b, first, host)
  {
  }

  lemma OnePatches(s: State, a: ChildRun, b: ChildRun, first: ParentData, host: Host)
    requires Initial(s) && HasResult(a) && HasResult(b) && first.stack != []
    ensures OnePatched(Run(s, TwoReads(first, a, b, host)), a, b, first, host)
  {
    var p1 := FirstWait(first, Child(a, 1), host);
    var p2 := [Start(1, Child(b, 1), host), Advance(0, Succeeds), Advance(1, Succeeds)];
    FirstWaitReached(s, first, Child(a, 1), host);
    BothRead(Run(s, p1), a, b, first, host);
    FirstPatchIsWritten(Run(Run(s, p1), p2), a, b, first, host);
    RunAppend(s, p1, p2);
    RunAppend(s, p1 + p2, [Advance(0, Succeeds)]);
    RunOne(Run(s, p1 + p2), Advance(0, Succeeds));
  }

  /** Both have patched from the same read, so that only the later write remains; each is
      ready to claim. */
  lemma LastPatchWins(s: State, a: ChildRun, b: ChildRun, first: ParentData, host: Host)
    requires first.stack != [] && OnePatched(s, a, b, first, host)
    ensures var t := Run(s, [Advance(1, Succeeds), Advance(0, Succeeds), Advance(1, Succeeds)]);
            && t.row.status.Waiting? && t.row.period == 1 && t.row.data == Patch(b, first) && t.row.takeovers == []
            && t.row.executing == map[] && t.row.savedFor == 1
            && t.flows == map[0 := Flow(Child(a, 1), host, 1, Claim(Snapshot(Patch(b, first), 1, 1))),
                              1 := Flow(Child(b, 1), host, 1, Claim(Snapshot(Patch(b, first), 1, 1)))]
  {
    RunThree(s, Advance(1, Succeeds), Advance(0, Succeeds), Advance(1, Succeeds));
  }

  /** The first flow resumes the parent, which is saved as waiting again. */
  lemma SecondWaitBegins(s: State, id: FlowId, second: ParentData)
    requires s.row.status.Waiting? && s.row.executing == map[] && id in s.flows && s.flows[id].stage.Claim?
    ensures var t := Run(s, [Advance(id, Succeeds), MarkRunning(Some(id), Confirmed), Park(Some(id), second)]);
            && t.row.status.Waiting? && t.row.period == s.row.period + 1 && t.row.data == second
            && t.row.executing == map[] && t.row.savedFor == s.row.period + 1
            && |t.row.takeovers| == |s.row.takeovers| + 1
            && t.flows == s.flows[id := s.flows[id].(stage := Ended(true))]
  {
    RunThree(s, Advance(id, Succeeds), MarkRunning(Some(id), Confirmed), Park(Some(id), second));
  }

  /** A claim that carries over: a flow left over from the first wait takes the parent over
      in its second wait and overwrites that wait's data with what it read in the first. */
  lemma LeftoverFlowOverwritesSecondWait(
    s: State, a: ChildRun, b: ChildRun, first: ParentData, second: ParentData, host: Host)
    requires Initial(s) && HasResult(a) && HasResult(b) && first.stack != []
    ensures var t := Run(s, TwoReads(first, a, b, host) + [Advance(1, Succeeds), Advance(0, Succeeds), Advance(1, Succeeds)] +
                            [Advance(0, Succeeds), MarkRunning(Some(0), Confirmed), Park(Some(0), second)]);
            && CarriesOver(t, Advance(1, Succeeds))
            && Next(t, Advance(1, Succeeds)).row.takeovers == t.row.takeovers + [Takeover(2, 1, Patch(b, first), 1)]
  {
    var p1 := TwoReads(first, a, b, host);
    var p2 := [Advance(1, Succeeds), Advance(0, Succeeds), Advance(1, Succeeds)];
    RunAppend(s, p1, p2);
    RunAppend(s, p1 + p2, [Advance(0, Succeeds), MarkRunning(Some(0), Confirmed), Park(Some(0), second)]);
    OnePatches(s, a, b, first, host);
    LastPatchWins(Run(s, p1), a, b, first, host);
    SecondWaitBegins(Run(s, p1 + p2), 0, second);
  }

  /** A patch that carries over: written in the second wait, it replaces that wait's data by
      what was read in the first. Its flow then reads that and takes the parent over, with a
      snapshot that is not out of date. */
  lemma LatePatchReplacesSecondWait(
    s: State, a: ChildRun, b: ChildRun, first: ParentData, second: ParentData, host: Host)
    requires Initial(s) && HasResult(a) && HasResult(b) && first.stack != []
    ensures var t := Run(s, TwoReads(first, a, b, host) + [Advance(0, Succeeds)] +
                            [Advance(0, Succeeds), MarkRunning(Some(0), Confirmed), Park(Some(0), second)]);
            var u := Run(t, [Advance(1, Succeeds), Advance(1, Succeeds), Advance(1, Succeeds)]);
            && t.row.status.Waiting? && t.row.period == 2 && t.row.data == second
            && CarriesOver(t, Advance(1, Succeeds))
            && u.row.takeovers == t.row.takeovers + [Takeover(2, 1, Patch(b, first), 1)]
  {
    var p1 := TwoReads(first, a, b, host);
    var p3 := [Advance(0, Succeeds), MarkRunning(Some(0), Confirmed), Park(Some(0), second)];
    RunAppend(s, p1, [Advance(0, Succeeds)]);
    RunAppend(s, p1 + [Advance(0, Succeeds)], p3);
    OnePatches(s, a, b, first, host);
    RunOne(Run(s, p1), Advance(0, Succeeds));
    SecondWaitBegins(Run(s, p1 + [Advance(0, Succeeds)]), 0, second);
    LatePatchThenClaim(Run(s, p1 + [Advance(0, Succeeds)] + p3), 1);
  }

  lemma LatePatchThenClaim(s: State, id: FlowId)
    requires s.row.status.Waiting? && id in s.flows && s.flows[id].stage.WritePatch?
    ensures var u := Run(s, [Advance(id, Succeeds), Advance(id, Succeeds), Advance(id, Succeeds)]);
            var late := s.flows[id].stage.pending;
            u.row.takeovers == s.row.takeovers + [Takeover(s.row.period, id, late.data, late.savedFor)]
  {
    RunThree(s, Advance(id, Succeeds), Advance(id, Succeeds), Advance(id, Succeeds));
  }

  /** A patch written once the row no longer waits changes the data of an execution that
      has ended, which no save does. */
  lemma LatePatchChangesFinishedData(s: State, executor: Executor, id: FlowId, result: ParentData)
    requires Runs(s.row, executor) && !s.row.status.Canceled? && id in s.flows && s.flows[id].stage.WritePatch?
    ensures var t := Run(s, [Finish(executor, Completed, result), Advance(id, Succeeds)]);
            t.row.status.Success? && t.row.data == s.flows[id].stage.pending.data
  {
    RunTwo(s, Finish(executor, Completed, result), Advance(id, Succeeds));
  }
}
