/** The queue behind a concurrency limit. */
module ConcurrencyQueue {
  import opened Wrappers

  type ExecId = string

  /** `running` counts the executions let through and not yet released. */
  datatype Queue = Queue(capacity: int, waiting: seq<ExecId>, running: nat)

  datatype Event = Enqueue(id: ExecId) | Dequeue | Remove(id: ExecId)

  function IndexOf(waiting: seq<ExecId>, id: ExecId): (r: Option<nat>)
    ensures r.Some? ==> r.value < |waiting| && waiting[r.value] == id && id !in waiting[..r.value]
    ensures r.None? <==> id !in waiting
  {
    if waiting == [] then None
    else if waiting[0] == id then Some(0)
    else
      var rest := IndexOf(waiting[1..], id);
      if rest.None? then None else Some(rest.value + 1)
  }

  /** Lets the first waiting execution through, if there is one. */
  function ResolveNext(q: Queue): Queue {
    if q.waiting == [] then q else q.(waiting := q.waiting[1..], running := q.running + 1)
  }

  /** The queue after an event; a slot can only be given back by someone who runs. */
  function After(q: Queue, event: Event): Queue {
    match event
    case Enqueue(id) =>
      var less := q.(capacity := q.capacity - 1);
      if less.capacity < 0 then less.(waiting := q.waiting + [id]) else less.(running := q.running + 1)
    case Dequeue =>
      if q.running == 0 then q
      else ResolveNext(q.(capacity := q.capacity + 1, running := q.running - 1))
    case Remove(id) =>
      var index := IndexOf(q.waiting, id);
      if index.None? then q
      else
        ResolveNext(q.(waiting := q.waiting[..index.value] + q.waiting[index.value + 1..], capacity := q.capacity + 1))
  }

  function AfterAll(q: Queue, events: seq<Event>): Queue
    decreases |events|
  {
    if events == [] then q else AfterAll(After(q, events[0]), events[1..])
  }

  /** The capacity counter accounts for everyone running and waiting, and nobody waits
      while there is room. */
  ghost predicate Balanced(limit: nat, q: Queue) {
    q.capacity == limit - q.running - |q.waiting| && (q.waiting != [] ==> limit <= q.running)
  }

  lemma EventKeepsBalance(limit: nat, q: Queue, event: Event)
    requires Balanced(limit, q)
    ensures Balanced(limit, After(q, event))
  {
  }

  /** Removing a waiting execution also lets the next one through, although no slot has
      become free: the limit survives exactly if nobody else was waiting. */
  lemma LimitSurvivesExactlyWhen(limit: nat, q: Queue, event: Event)
    requires Balanced(limit, q) && q.running <= limit
    ensures After(q, event).running <= limit <==> !(event.Remove? && event.id in q.waiting && |q.waiting| > 1)
  {
  }

  lemma AfterOne(q: Queue, a: Event)
    ensures AfterAll(q, [a]) == After(q, a)
  {
  }

  lemma AfterThree(q: Queue, a: Event, b: Event, c: Event, rest: seq<Event>)
    ensures AfterAll(q, [a, b, c] + rest) == AfterAll(After(After(After(q, a), b), c), rest)
  {
    assert ([a, b, c] + rest)[1..] == [b, c] + rest;
    assert ([b, c] + rest)[1..] == [c] + rest;
    assert ([c] + rest)[1..] == rest;
    var next := After(q, a);
    assert AfterAll(next, [b, c] + rest) == AfterAll(After(next, b), [c] + rest);
    assert AfterAll(After(next, b), [c] + rest) == AfterAll(After(After(next, b), c), rest);
  }

  /** A run beyond a limit of one: the second of three executions is removed while the
      third waits, which is let through beside the first. */
  lemma RemovalExceedsLimit(a: ExecId, b: ExecId, c: ExecId)
    ensures AfterAll(Queue(1, [], 0), [Enqueue(a), Enqueue(b), Enqueue(c)] + [Remove(b)]) == Queue(-1, [], 2)
  {
    AfterThree(Queue(1, [], 0), Enqueue(a), Enqueue(b), Enqueue(c), [Remove(b)]);
    var q := After(After(After(Queue(1, [], 0), Enqueue(a)), Enqueue(b)), Enqueue(c));
    assert q == Queue(-2, [b, c], 1);
    AfterOne(q, Remove(b));
    assert [b, c][..0] + [b, c][1..] == [c];
    assert IndexOf(q.waiting, b) == Some(0);
  }

  /** Who does not find room goes to the end of the queue, so the first to come is the
      first to be let through. */
  lemma FirstInFirstOut(limit: nat, q: Queue, id: ExecId)
    requires Balanced(limit, q)
    ensures q.running < limit ==> After(q, Enqueue(id)).running == q.running + 1 && After(q, Enqueue(id)).waiting == q.waiting
    ensures q.running >= limit ==> After(q, Enqueue(id)).running == q.running && After(q, Enqueue(id)).waiting == q.waiting + [id]
    ensures q.running > 0 && q.waiting != [] ==>
              After(q, Dequeue).waiting == q.waiting[1..] && After(q, Dequeue).running == q.running
    ensures q.running > 0 && q.waiting == [] ==>
              After(q, Dequeue).waiting == [] && After(q, Dequeue).running == q.running - 1
  {
  }

  /** The queue with the first occurrence of the execution taken out, the others in order. */
  ghost predicate TakenOut(waiting: seq<ExecId>, id: ExecId, rest: seq<ExecId>) {
    exists i :: 0 <= i < |waiting| && waiting[i] == id && id !in waiting[..i] && rest == waiting[..i] + waiting[i + 1..]
  }

  /** Removing a queued execution takes it out, and lets the first of the others through. */
  lemma RemovalTakesOut(q: Queue, id: ExecId)
    ensures id !in q.waiting ==> After(q, Remove(id)) == q
    ensures id in q.waiting ==>
              exists rest :: TakenOut(q.waiting, id, rest)
                             && After(q, Remove(id)).waiting == (if rest == [] then [] else rest[1..])
                             && After(q, Remove(id)).running == q.running + (if rest == [] then 0 else 1)
  {
    var index := IndexOf(q.waiting, id);
    if index.Some? {
      assert TakenOut(q.waiting, id, q.waiting[..index.value] + q.waiting[index.value + 1..]);
    }
  }

  /** Removals take out only executions that nobody else waits beside. */
  ghost predicate LoneRemovals(q: Queue, events: seq<Event>)
    decreases |events|
  {
    events == [] ||
    (&& (events[0].Remove? ==> events[0].id !in q.waiting || |q.waiting| == 1)
     && LoneRemovals(After(q, events[0]), events[1..]))
  }

  lemma {:induction false} RunsStayWithinLimit(limit: nat, q: Queue, events: seq<Event>)
    requires Balanced(limit, q)
    ensures Balanced(limit, AfterAll(q, events))
    ensures q.running <= limit && LoneRemovals(q, events) ==> AfterAll(q, events).running <= limit
    decreases |events|
  {
    if events != [] {
      EventKeepsBalance(limit, q, events[0]);
      if q.running <= limit {
        LimitSurvivesExactlyWhen(limit, q, events[0]);
      }
      RunsStayWithinLimit(limit, After(q, events[0]), events[1..]);
    }
  }

  /** In every run nobody waits while there is room; as long as no execution is removed
      from among several waiting ones, the limit is never exceeded. */
  lemma ConcurrencyIsLimited(limit: nat, events: seq<Event>)
    ensures var q := AfterAll(Queue(limit, [], 0), events);
            && (q.waiting != [] ==> limit <= q.running)
            && (LoneRemovals(Queue(limit, [], 0), events) ==> q.running <= limit)
  {
    RunsStayWithinLimit(limit, Queue(limit, [], 0), events);
  }

  class ConcurrencyQueue {
    var capacity: int
    var queue: seq<ExecId>
    ghost var running: nat

    ghost function State(): Queue
      reads this
    {
      Queue(capacity, queue, running)
    }

    constructor (capacity: nat)
      ensures State() == Queue(capacity, [], 0)
    {
      this.capacity, queue, running := capacity, [], 0;
    }

    /** True if the execution may start at once, false if it has to wait. */
    method EnqueueExecution(executionId: ExecId) returns (started: bool)
      modifies this
      ensures State() == After(old(State()), Enqueue(executionId))
      ensures started <==> 0 < old(capacity)
    {
      capacity := capacity - 1;
      if capacity < 0 {
        queue := queue + [executionId];
        return false;
      }
      running := running + 1;
      return true;
    }

    method DequeueExecution() returns (started: Option<ExecId>)
      requires running > 0
      modifies this
      ensures State() == After(old(State()), Dequeue)
      ensures started == if old(queue) == [] then None else Some(old(queue)[0])
    {
      capacity := capacity + 1;
      running := running - 1;
      started := StartNext();
    }

    method RemoveExecution(executionId: ExecId) returns (started: Option<ExecId>)
      modifies this
      ensures State() == After(old(State()), Remove(executionId))
      ensures started.Some? <==> executionId in old(queue) && |old(queue)| > 1
      ensures started.Some? ==>
                exists rest :: TakenOut(old(queue), executionId, rest) && rest != [] && started.value == rest[0]
    {
      var index := IndexOf(queue, executionId);
      if index.None? {
        return None;
      }
      queue := queue[..index.value] + queue[index.value + 1..];
      assert TakenOut(old(queue), executionId, queue);
      capacity := capacity + 1;
      started := StartNext();
    }

    method StartNext() returns (started: Option<ExecId>)
      modifies this
      ensures State() == ResolveNext(old(State()))
      ensures started == if old(queue) == [] then None else Some(old(queue)[0])
    {
      if queue == [] {
        return None;
      }
      started := Some(queue[0]);
      queue := queue[1..];
      running := running + 1;
    }
  }
}
