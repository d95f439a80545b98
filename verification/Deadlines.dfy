/** Deadlines of workflows and of the sub-workflows nested below them. */
module Deadlines {
  import opened Arithmetic
  import opened Wrappers

  /** The executions configuration, in seconds; a maximum of zero or less is no maximum. */
  datatype ExecutionsConfig = ExecutionsConfig(timeout: int, maxTimeout: int)

  function Clamped(timeout: int, config: ExecutionsConfig): int {
    if config.maxTimeout > 0 then Min(timeout, config.maxTimeout) else timeout
  }

  /** A workflow's own deadline in milliseconds. There is one exactly if the governing
      timeout, the workflow's own or else the default, is positive: an own timeout of zero
      or less does not fall back to the default. It lies at that timeout or at the
      configured maximum after the start, whichever comes first. */
  function DetermineWorkflowDeadline(startTime: int, executionTimeout: Option<int>, config: ExecutionsConfig)
    : (r: Option<int>)
    ensures r.Some? <==> executionTimeout.GetOr(config.timeout) > 0
    ensures r.Some? ==>
              var timeout := startTime + 1000 * executionTimeout.GetOr(config.timeout);
              var maximum := startTime + 1000 * config.maxTimeout;
              && startTime < r.value <= timeout
              && (config.maxTimeout > 0 ==> r.value <= maximum)
              && (r.value == timeout || (config.maxTimeout > 0 && r.value == maximum))
  {
    if executionTimeout.Some? then
      if executionTimeout.value <= 0 then None
      else Some(startTime + Clamped(executionTimeout.value, config) * 1000)
    else if config.timeout > 0 then Some(startTime + Clamped(config.timeout, config) * 1000)
    else None
  }

  function ResolveSubworkflowDeadline(own: Option<int>, parent: Option<int>, doNotWait: bool): Option<int> {
    if doNotWait then own
    else if parent.Some? && own.Some? then Some(Min(parent.value, own.value))
    else if parent.Some? then parent
    else own
  }

  /** One level of nesting: when it started, its timeout, and whether its parent waits for it. */
  datatype Level = Level(startTime: int, executionTimeout: Option<int>, detached: bool)

  function Own(level: Level, config: ExecutionsConfig): Option<int> {
    DetermineWorkflowDeadline(level.startTime, level.executionTimeout, config)
  }

  /** The deadline each level hands to the next: `levels[0]` runs below `root`. */
  function DeadlineAt(root: Option<int>, levels: seq<Level>, config: ExecutionsConfig): Option<int> {
    if levels == [] then root
    else
      var last := levels[|levels| - 1];
      ResolveSubworkflowDeadline(
        Own(last, config), DeadlineAt(root, levels[..|levels| - 1], config), last.detached)
  }

  /** No level from `from` on is detached from its parent. */
  ghost predicate AwaitedFrom(levels: seq<Level>, from: nat) {
    forall i :: from <= i < |levels| ==> !levels[i].detached
  }

  /** `d` is the least of the given deadline and the own deadlines of the levels from `from` on. */
  ghost predicate IsLeastFrom(
    base: Option<int>, levels: seq<Level>, from: nat, config: ExecutionsConfig, d: Option<int>)
  {
    && (d.None? <==> base.None? && forall i :: from <= i < |levels| ==> Own(levels[i], config).None?)
    && (d.Some? ==>
          && (base == d || exists i :: from <= i < |levels| && Own(levels[i], config) == d)
          && (base.Some? ==> d.value <= base.value)
          && (forall i :: from <= i < |levels| && Own(levels[i], config).Some? ==> d.value <= Own(levels[i], config).value))
  }

  /** One more awaited level lowers the least deadline to its own one at most. */
  lemma LeastExtends(
    base: Option<int>, front: seq<Level>, last: Level, from: nat, config: ExecutionsConfig, d: Option<int>)
    requires from <= |front| && IsLeastFrom(base, front, from, config, d)
    ensures IsLeastFrom(base, front + [last], from, config, ResolveSubworkflowDeadline(Own(last, config), d, false))
  {
    var levels := front + [last];
    assert levels[|front|] == last;
    assert forall i :: from <= i < |front| ==> levels[i] == front[i];
    if d.Some? && d != base {
      var i :| from <= i < |front| && Own(front[i], config) == d;
      assert Own(levels[i], config) == d;
    }
  }

  lemma {:induction false} LeastBelow(root: Option<int>, levels: seq<Level>, from: nat, config: ExecutionsConfig)
    requires from <= |levels| && AwaitedFrom(levels, from)
    ensures IsLeastFrom(DeadlineAt(root, levels[..from], config), levels, from, config, DeadlineAt(root, levels, config))
    decreases |levels|
  {
    if from == |levels| {
      assert levels[..from] == levels;
    } else {
      var front, last := levels[..|levels| - 1], levels[|levels| - 1];
      LeastBelow(root, front, from, config);
      assert front[..from] == levels[..from];
      assert levels == front + [last];
      LeastExtends(DeadlineAt(root, levels[..from], config), front, last, from, config, DeadlineAt(root, front, config));
    }
  }

  /** Nested to any depth with every level awaited, the deadline is the minimum of the
      root's and of all own deadlines defined on the way, undefined if there are none. */
  lemma {:induction false} AwaitedDeadlineIsMinimum(root: Option<int>, levels: seq<Level>, config: ExecutionsConfig)
    requires AwaitedFrom(levels, 0)
    ensures IsLeastFrom(root, levels, 0, config, DeadlineAt(root, levels, config))
  {
    LeastBelow(root, levels, 0, config);
    assert levels[..0] == [];
  }

  /** A detached level restarts the chain: nothing above it matters any more. */
  lemma {:induction false} DetachedLevelRestarts(root: Option<int>, levels: seq<Level>, k: nat, config: ExecutionsConfig)
    requires k < |levels| && levels[k].detached && AwaitedFrom(levels, k + 1)
    ensures IsLeastFrom(None, levels, k, config, DeadlineAt(root, levels, config))
  {
    LeastBelow(root, levels, k + 1, config);
    assert levels[..k + 1][|levels[..k + 1]| - 1] == levels[k];
    assert DeadlineAt(root, levels[..k + 1], config) == Own(levels[k], config);
  }

  /** An awaited level never outlives its parent. */
  lemma {:induction false} NeverExceedsParent(root: Option<int>, levels: seq<Level>, level: Level, config: ExecutionsConfig)
    requires !level.detached && DeadlineAt(root, levels, config).Some?
    ensures DeadlineAt(root, levels + [level], config).Some?
    ensures DeadlineAt(root, levels + [level], config).value <= DeadlineAt(root, levels, config).value
  {
    var all := levels + [level];
    assert all[..|all| - 1] == levels && all[|all| - 1] == level;
  }
}
