/** The execution rows as one process sees them when nothing interferes. */
module ExecutionStore {
  import opened Wrappers
  import opened ParentPatch
  import opened ResumeProtocol

  /** The execution that started this one; without a flag it is to be resumed. */
  datatype RelatedExecution = RelatedExecution(executionId: string, shouldResume: Option<bool>)

  function ShouldRestartParentExecution(parent: Option<RelatedExecution>): bool {
    parent.Some? && (parent.value.shouldResume.None? || parent.value.shouldResume.value)
  }

  /** `saved` says whether the workflow has an id; the parent is part of the stored data. */
  datatype ExecutionRow = ExecutionRow(
    status: Status, data: ParentData, saved: bool, parent: Option<RelatedExecution>)
  {
    /** Only a successful execution counts as finished. */
    predicate Finished() {
      status.Success?
    }
  }

  datatype Conditions = Conditions(requireStatus: Option<Status>, requireNotFinished: bool, requireNotCanceled: bool)

  const NoConditions := Conditions(None, false, false)

  /** The two conditions on the status cannot be combined. */
  datatype UpdateResult = Updated | NotUpdated | ConditionsConflict

  class ExecutionPersistence {
    var rows: map<string, ExecutionRow>

    constructor (rows: map<string, ExecutionRow>)
      ensures this.rows == rows
    {
      this.rows := rows;
    }

    method FindSingleExecution(id: string) returns (r: Option<ExecutionRow>)
      ensures r == if id in rows then Some(rows[id]) else None
    {
      r := if id in rows then Some(rows[id]) else None;
    }

    /** Writes the given parts of a row if it exists and meets all conditions. An update
        that gives nothing is reported as done without looking. */
    method UpdateExistingExecution(
      id: string, data: Option<ParentData>, status: Option<Status>, conditions: Conditions)
      returns (r: UpdateResult)
      modifies this
      ensures r.ConditionsConflict? <==>
              (data.Some? || status.Some?) && conditions.requireStatus.Some? && conditions.requireNotCanceled
      ensures data.None? && status.None? ==> r.Updated?
      ensures data.Some? || status.Some? ==>
                (r.Updated? <==>
                 && !r.ConditionsConflict?
                 && id in old(rows)
                 && (conditions.requireStatus.Some? ==> old(rows)[id].status == conditions.requireStatus.value)
                 && (conditions.requireNotFinished ==> !old(rows)[id].Finished())
                 && (conditions.requireNotCanceled ==> old(rows)[id].status != Canceled))
      ensures rows == if r.Updated? && id in old(rows)
                      then old(rows)[id := old(rows)[id].(status := status.GetOr(old(rows)[id].status),
                                                          data := data.GetOr(old(rows)[id].data))]
                      else old(rows)
    {
      if data.None? && status.None? {
        assert id in rows ==> rows == rows[id := rows[id]];
        return Updated;
      }
      if conditions.requireStatus.Some? && conditions.requireNotCanceled {
        return ConditionsConflict;
      }
      if id !in rows {
        return NotUpdated;
      }
      var row := rows[id];
      if conditions.requireStatus.Some? && row.status != conditions.requireStatus.value {
        return NotUpdated;
      }
      if conditions.requireNotFinished && row.Finished() {
        return NotUpdated;
      }
      if conditions.requireNotCanceled && row.status.Canceled? {
        return NotUpdated;
      }
      rows := rows[id := row.(status := status.GetOr(row.status), data := data.GetOr(row.data))];
      return Updated;
    }
  }

  /** The row that patching it with a child's results leaves behind. */
  ghost function Patched(row: ExecutionRow, child: ChildRun): ExecutionRow {
    if row.status.Waiting? && HasResult(child) && row.data.stack != []
    then row.(data := Patch(child, row.data)) else row
  }

  /** Embeds the child's results into the waiting parent: usage flags first, then the
      error or the output. Everything else about the rows stays as it was. */
  method UpdateParentExecutionWithChildResults(persistence: ExecutionPersistence, parentId: string, child: ChildRun)
    modifies persistence
    ensures persistence.rows ==
            if parentId in old(persistence.rows)
            then old(persistence.rows)[parentId := Patched(old(persistence.rows)[parentId], child)]
            else old(persistence.rows)
  {
    var output := Output(child);
    if child.error.None? && output.None? {
      return;
    }
    var parent := persistence.FindSingleExecution(parentId);
    if parent.None? || !parent.value.status.Waiting? {
      return;
    }
    var data := parent.value.data;
    if |data.stack| == 0 {
      return;
    }
    var head := data.stack[0];
    var usage := SummarizeUsage(child);
    if usage.used || usage.attempted {
      head := head.(metadata := head.metadata.(usage := Union(head.metadata.usage, usage)));
      if HasWaitingTask(data) {
        var task := WaitingTask(data);
        if usage.used {
          task := task.(used := true);
        }
        if usage.attempted {
          task := task.(attempted := true);
        }
        data := WithWaitingTask(data, task);
      }
      if usage.used && usage.userId.Some? && data.runtime.Some? {
        data := data.(runtime := Some(usage.userId));
      }
    } else {
      NothingReported(parent.value.data, usage);
    }
    if child.error.Some? {
      head := head.(metadata := head.metadata.(resumeError := child.error));
      if child.childExecution.Some? {
        head := head.(metadata := head.metadata.(subExecution := child.childExecution));
      }
    } else {
      head := head.(data := output.value);
    }
    data := data.(stack := data.stack[0 := head]);
    assert data == Patch(child, parent.value.data);
    var _ := persistence.UpdateExistingExecution(parentId, Some(data), None, NoConditions);
  }

  /** A repeated patch of the row changes nothing. */
  lemma PatchedIdempotent(row: ExecutionRow, child: ChildRun)
    ensures Patched(Patched(row, child), child) == Patched(row, child)
  {
    if row.data.stack != [] {
      PatchIdempotent(child, row.data);
    }
  }

  lemma NothingReported(d: ParentData, usage: Usage)
    requires !usage.used && !usage.attempted && usage.userId.None?
    ensures d.stack != [] ==> Union(d.stack[0].metadata.usage, usage) == d.stack[0].metadata.usage
    ensures HasWaitingTask(d) ==> WithWaitingTask(d, FlagTask(WaitingTask(d), usage)) == d
  {
    if HasWaitingTask(d) {
      var node := d.stack[0].node;
      assert WithWaitingTask(d, WaitingTask(d)).runData[node] == d.runData[node];
      assert WithWaitingTask(d, WaitingTask(d)).runData == d.runData;
    }
  }
}
