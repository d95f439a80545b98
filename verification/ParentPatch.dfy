/** Patching a waiting parent execution with the results of a finished child. */
module ParentPatch {
  import opened Wrappers

  /** Node items and errors are opaque values. */
  type Items = string

  type ErrorInfo = string

  datatype Task = Task(data: Option<Items>, used: bool, attempted: bool)

  type RunData = map<string, seq<Task>>

  /** The result of a child execution, with the id the child is linked by, if any. */
  datatype ChildRun = ChildRun(
    error: Option<ErrorInfo>, runData: RunData, lastNode: Option<string>, pinData: map<string, Items>,
    manual: bool, executedByUserId: Option<string>, childExecution: Option<string>)

  /** Private-credential usage reported by a run; a user id only comes with `used`. */
  datatype Usage = Usage(used: bool, attempted: bool, userId: Option<string>)

  datatype Metadata = Metadata(usage: Usage, resumeError: Option<ErrorInfo>, subExecution: Option<string>)

  datatype StackEntry = StackEntry(node: string, data: Items, metadata: Metadata)

  /** The parts of a parent's execution data that a patch reads or writes; `runtime` is
      the runtime data, if any, with the user it was executed by. */
  datatype ParentData = ParentData(stack: seq<StackEntry>, runData: RunData, runtime: Option<Option<string>>)

  // ---- What a child reports ----

  /** The last run of the last executed node; pinned data replaces it in manual mode. */
  function GetLastExecutedNodeData(child: ChildRun): (r: Option<Task>)
    ensures r.Some? <==> child.lastNode.Some? && child.lastNode.value in child.runData
                         && child.runData[child.lastNode.value] != []
    ensures r.Some? && child.manual && child.lastNode.value in child.pinData ==>
              r.value.data == Some(child.pinData[child.lastNode.value])
    ensures r.Some? && !(child.manual && child.lastNode.value in child.pinData) ==>
              exists earlier :: child.runData[child.lastNode.value] == earlier + [r.value]
  {
    if child.lastNode.None? || child.lastNode.value !in child.runData then None
    else
      var node := child.lastNode.value;
      var tasks := child.runData[node];
      if tasks == [] then None
      else if child.manual && node in child.pinData then Some(Task(Some(child.pinData[node]), false, false))
      else
        assert tasks == tasks[..|tasks| - 1] + [tasks[|tasks| - 1]];
        Some(tasks[|tasks| - 1])
  }

  function Output(child: ChildRun): Option<Items> {
    var last := GetLastExecutedNodeData(child);
    if last.None? then None else last.value.data
  }

  predicate HasResult(child: ChildRun) {
    child.error.Some? || Output(child).Some?
  }

  predicate RunUsed(runData: RunData) {
    exists n :: n in runData && exists i :: 0 <= i < |runData[n]| && runData[n][i].used
  }

  predicate RunAttempted(runData: RunData) {
    exists n :: n in runData && exists i :: 0 <= i < |runData[n]| && runData[n][i].attempted
  }

  /** Each flag is set exactly if some task of the run carries it; a user is reported
      together with actual usage only, and never an empty one. */
  function SummarizeUsage(child: ChildRun): (u: Usage)
    ensures u.used <==> exists n :: n in child.runData && exists t :: t in child.runData[n] && t.used
    ensures u.attempted <==> exists n :: n in child.runData && exists t :: t in child.runData[n] && t.attempted
    ensures u.userId.Some? <==> u.used && child.executedByUserId.Some? && child.executedByUserId.value != ""
    ensures u.userId.Some? ==> u.userId == child.executedByUserId
    ensures u.userId.Some? ==> u.used && u.userId.value != ""
  {
    Usage(
      RunUsed(child.runData),
      RunAttempted(child.runData),
      if RunUsed(child.runData) && child.executedByUserId.Some? && child.executedByUserId.value != ""
      then child.executedByUserId else None)
  }

  // ---- The patch ----

  /** Flags only accumulate; the latest reported user wins. */
  function Union(known: Usage, reported: Usage): Usage {
    Usage(known.used || reported.used, known.attempted || reported.attempted,
          if reported.userId.Some? then reported.userId else known.userId)
  }

  /** The waiting task of the node on top of the stack, if there is one. */
  predicate HasWaitingTask(d: ParentData) {
    && d.stack != []
    && d.stack[0].node in d.runData
    && d.runData[d.stack[0].node] != []
  }

  function WaitingTask(d: ParentData): Task
    requires HasWaitingTask(d)
  {
    var tasks := d.runData[d.stack[0].node];
    tasks[|tasks| - 1]
  }

  function FlagTask(task: Task, usage: Usage): Task {
    task.(used := task.used || usage.used, attempted := task.attempted || usage.attempted)
  }

  function WithWaitingTask(d: ParentData, task: Task): ParentData
    requires HasWaitingTask(d)
  {
    var tasks := d.runData[d.stack[0].node];
    d.(runData := d.runData[d.stack[0].node := tasks[|tasks| - 1 := task]])
  }

  /** The top of the stack after the patch: an error is recorded as `resumeError`, an
      output replaces the input, and usage flags accumulate either way. */
  function PatchHead(child: ChildRun, head: StackEntry): StackEntry {
    var usage := Union(head.metadata.usage, SummarizeUsage(child));
    if child.error.Some? then
      head.(metadata := Metadata(
        usage, child.error,
        if child.childExecution.Some? then child.childExecution else head.metadata.subExecution))
    else
      StackEntry(head.node, Output(child).GetOr(head.data), head.metadata.(usage := usage))
  }

  /** The parent's data after the patch of one child with a result. */
  function Patch(child: ChildRun, d: ParentData): (r: ParentData)
    requires d.stack != []
    ensures |r.stack| == |d.stack| && r.stack[1..] == d.stack[1..]
    ensures r.stack[0] == PatchHead(child, d.stack[0])
    ensures HasWaitingTask(r) <==> HasWaitingTask(d)
  {
    var usage := SummarizeUsage(child);
    var flagged := if HasWaitingTask(d) then WithWaitingTask(d, FlagTask(WaitingTask(d), usage)) else d;
    flagged.(
      stack := d.stack[0 := PatchHead(child, d.stack[0])],
      runtime := if d.runtime.Some? && usage.userId.Some? then Some(usage.userId) else d.runtime)
  }

  /** The stack head shows this child's outcome. */
  predicate CarriesFrom(child: ChildRun, d: ParentData) {
    && d.stack != []
    && HasResult(child)
    && (if child.error.Some? then d.stack[0].metadata.resumeError == child.error
        else Some(d.stack[0].data) == Output(child))
  }

  lemma PatchCarries(child: ChildRun, d: ParentData)
    requires d.stack != [] && HasResult(child)
    ensures CarriesFrom(child, Patch(child, d))
  {
  }

  /** A retried write patches the parent as one write does. */
  lemma PatchIdempotent(child: ChildRun, d: ParentData)
    requires d.stack != []
    ensures Patch(child, Patch(child, d)) == Patch(child, d)
  {
    var once := Patch(child, d);
    var twice := Patch(child, once);
    if HasWaitingTask(d) {
      var node := d.stack[0].node;
      assert WaitingTask(once) == FlagTask(WaitingTask(d), SummarizeUsage(child));
      assert twice.runData[node] == once.runData[node];
      assert twice.runData == once.runData;
    }
    assert twice.stack == once.stack;
  }

  // ---- Many children, one after another ----

  /** The patches of all children with a result, in order. */
  function PatchAll(children: seq<ChildRun>, d: ParentData): (r: ParentData)
    requires d.stack != []
    ensures |r.stack| == |d.stack|
  {
    if children == [] then d
    else
      var before := PatchAll(children[..|children| - 1], d);
      var child := children[|children| - 1];
      if HasResult(child) then Patch(child, before) else before
  }

  /** The index of the last child with property `p`, if any. */
  ghost function LastIndex(children: seq<ChildRun>, p: ChildRun -> bool): (r: Option<nat>)
    ensures r.Some? ==> r.value < |children| && p(children[r.value])
                        && forall i :: r.value < i < |children| ==> !p(children[i])
    ensures r.None? ==> forall i :: 0 <= i < |children| ==> !p(children[i])
  {
    if children == [] then None
    else if p(children[|children| - 1]) then Some(|children| - 1)
    else LastIndex(children[..|children| - 1], p)
  }

  /** Some child with a result reported usage of private credentials. */
  ghost predicate SomeUsed(children: seq<ChildRun>) {
    exists i :: 0 <= i < |children| && HasResult(children[i]) && SummarizeUsage(children[i]).used
  }

  ghost predicate SomeAttempted(children: seq<ChildRun>) {
    exists i :: 0 <= i < |children| && HasResult(children[i]) && SummarizeUsage(children[i]).attempted
  }

  lemma ReportsAccumulate(children: seq<ChildRun>)
    requires children != []
    ensures var front, child := children[..|children| - 1], children[|children| - 1];
            && (SomeUsed(children) <==> SomeUsed(front) || (HasResult(child) && SummarizeUsage(child).used))
            && (SomeAttempted(children) <==> SomeAttempted(front) || (HasResult(child) && SummarizeUsage(child).attempted))
  {
  }

  /** The last failing child's error, or what was there before any of them. */
  ghost function LatestError(children: seq<ChildRun>, initial: Option<ErrorInfo>): Option<ErrorInfo> {
    var last := LastIndex(children, (c: ChildRun) => c.error.Some?);
    if last.Some? then children[last.value].error else initial
  }

  /** The last successful child's output, or the original input. */
  ghost function LatestOutput(children: seq<ChildRun>, initial: Items): Items {
    var last := LastIndex(children, (c: ChildRun) => c.error.None? && Output(c).Some?);
    if last.Some? then Output(children[last.value]).value else initial
  }

  /** The user of the last report that names one. */
  ghost function LatestUser(children: seq<ChildRun>, initial: Option<string>): Option<string> {
    var last := LastIndex(children, (c: ChildRun) => HasResult(c) && SummarizeUsage(c).userId.Some?);
    if last.Some? then SummarizeUsage(children[last.value]).userId else initial
  }

  /** The link to the last failing child that has one. */
  ghost function LatestSubExecution(children: seq<ChildRun>, initial: Option<string>): Option<string> {
    var last := LastIndex(children, (c: ChildRun) => c.error.Some? && c.childExecution.Some?);
    if last.Some? then children[last.value].childExecution else initial
  }

  /** Usage flags on the stack head are the union of all reports. */
  lemma {:induction false} FlagsAreUnion(children: seq<ChildRun>, d: ParentData)
    requires d.stack != []
    ensures var usage, usage0 := PatchAll(children, d).stack[0].metadata.usage, d.stack[0].metadata.usage;
            && (usage.used <==> usage0.used || SomeUsed(children))
            && (usage.attempted <==> usage0.attempted || SomeAttempted(children))
  {
    if children != [] {
      FlagsAreUnion(children[..|children| - 1], d);
      ReportsAccumulate(children);
    }
  }

  /** Whatever the order and outcome of the children, the resume error is the latest
      failing child's and is never cleared, and the input is the latest successful
      child's output. */
  lemma {:induction false} LatestOutcomesWin(children: seq<ChildRun>, d: ParentData)
    requires d.stack != []
    ensures var head, head0 := PatchAll(children, d).stack[0], d.stack[0];
            && head.metadata.resumeError == LatestError(children, head0.metadata.resumeError)
            && head.data == LatestOutput(children, head0.data)
            && head.node == head0.node
  {
    if children != [] {
      LatestOutcomesWin(children[..|children| - 1], d);
    }
  }

  /** The user and the child execution on the stack head are the latest ones reported. */
  lemma {:induction false} LatestLinksWin(children: seq<ChildRun>, d: ParentData)
    requires d.stack != []
    ensures var metadata, metadata0 := PatchAll(children, d).stack[0].metadata, d.stack[0].metadata;
            && metadata.usage.userId == LatestUser(children, metadata0.usage.userId)
            && metadata.subExecution == LatestSubExecution(children, metadata0.subExecution)
  {
    if children != [] {
      LatestLinksWin(children[..|children| - 1], d);
    }
  }

  /** The runtime data names the last reported user; the rest of the stack is untouched. */
  lemma {:induction false} PatchesKeepTheRest(children: seq<ChildRun>, d: ParentData)
    requires d.stack != []
    ensures PatchAll(children, d).runtime ==
            if d.runtime.Some? then Some(LatestUser(children, d.runtime.value)) else None
    ensures PatchAll(children, d).stack[1..] == d.stack[1..]
  {
    if children != [] {
      PatchesKeepTheRest(children[..|children| - 1], d);
    }
  }

  /** Of the run data, only the last task of the node on top of the stack may change. */
  ghost predicate SameButWaitingTask(d: ParentData, d': ParentData)
    requires d.stack != []
  {
    && d'.runData.Keys == d.runData.Keys
    && (forall n :: n in d.runData && n != d.stack[0].node ==> d'.runData[n] == d.runData[n])
    && (d.stack[0].node in d.runData ==>
          var tasks, tasks' := d.runData[d.stack[0].node], d'.runData[d.stack[0].node];
          && |tasks'| == |tasks|
          && (forall i :: 0 <= i < |tasks| - 1 ==> tasks'[i] == tasks[i])
          && (tasks != [] ==> tasks'[|tasks| - 1].data == tasks[|tasks| - 1].data))
  }

  lemma PatchKeepsRunData(child: ChildRun, d: ParentData)
    requires d.stack != []
    ensures SameButWaitingTask(d, Patch(child, d)) && Patch(child, d).stack[0].node == d.stack[0].node
  {
  }

  /** However many children report, the results of all other nodes and all earlier tasks of
      the waiting node survive, and the waiting task keeps its output. */
  lemma {:induction false} PatchesKeepRunData(children: seq<ChildRun>, d: ParentData)
    requires d.stack != []
    ensures PatchAll(children, d).stack[0].node == d.stack[0].node
    ensures SameButWaitingTask(d, PatchAll(children, d))
  {
    if children != [] {
      var front, child := children[..|children| - 1], children[|children| - 1];
      PatchesKeepRunData(front, d);
      PatchKeepsRunData(child, PatchAll(front, d));
    }
  }

  /** Usage reported while a waiting task exists is stamped on that task as well. */
  lemma {:induction false} WaitingTaskAccumulates(children: seq<ChildRun>, d: ParentData)
    requires HasWaitingTask(d)
    ensures HasWaitingTask(PatchAll(children, d)) && PatchAll(children, d).stack[0].node == d.stack[0].node
    ensures var task := WaitingTask(PatchAll(children, d));
            && (task.used <==> WaitingTask(d).used || SomeUsed(children))
            && (task.attempted <==> WaitingTask(d).attempted || SomeAttempted(children))
            && task.data == WaitingTask(d).data
  {
    if children != [] {
      var front, child := children[..|children| - 1], children[|children| - 1];
      WaitingTaskAccumulates(front, d);
      ReportsAccumulate(children);
    }
  }
}
