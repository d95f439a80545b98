/** Queued workflow activations, their timers and the retries in flight, as a
    transition system over every event that touches them. */
module RetrySchedule {
  import opened Arithmetic

  type WorkflowId = string

  type TimerId = nat

  const INITIAL_TIMEOUT: nat := 1000
  const MAX_TIMEOUT: nat := 24 * 60 * 60 * 1000

  /** An activation object: `failures` counts the non-isolate failures charged to it. */
  datatype Activation = Activation(workflow: WorkflowId, lastTimeout: nat, timer: TimerId, failures: nat)

  /** The retry closure: its workflow and the activation it was created for. */
  datatype Retry = Retry(workflow: WorkflowId, own: nat)

  datatype Schedule = Schedule(
    queued: map<WorkflowId, nat>,  // the entry of each queued workflow
    activations: seq<Activation>,  // all activation objects ever created
    live: map<TimerId, Retry>,     // timers that are set and have not fired
    inFlight: map<TimerId, Retry>, // retries under way, by the timer that fired
    nextTimer: TimerId)

  datatype Event =
    | Enqueue(workflow: WorkflowId)
    | Remove(workflow: WorkflowId)
    | RemoveAll
    | Fire(timer: TimerId)
    | Succeed(retry: TimerId)
    | Refuse(retry: TimerId)              // blocked by policy
    | Fail(retry: TimerId, isolate: bool) // any other error

  /** The entry of a queued workflow. */
  function EntryOf(s: Schedule, w: WorkflowId): Activation
    requires Sane(s) && w in s.queued
  {
    s.activations[s.queued[w]]
  }

  ghost predicate Sane(s: Schedule) {
    && (forall w :: w in s.queued ==> s.queued[w] < |s.activations| && s.activations[s.queued[w]].workflow == w)
    && (forall t :: t in s.live ==> t < s.nextTimer)
    && (forall r :: r in s.inFlight ==> r < s.nextTimer)
    && (forall i :: 0 <= i < |s.activations| ==> s.activations[i].timer < s.nextTimer)
    && (forall i, j :: 0 <= i < j < |s.activations| ==> s.activations[i].timer != s.activations[j].timer)
  }

  /** The timers held by the entries of these workflows. */
  function TimersOf(s: Schedule, workflows: set<WorkflowId>): set<TimerId>
    requires Sane(s)
  {
    set w | w in workflows && w in s.queued :: EntryOf(s, w).timer
  }

  function Dequeued(s: Schedule, w: WorkflowId): (r: Schedule)
    requires Sane(s)
    ensures Sane(r)
  {
    if w in s.queued then s.(live := s.live - {EntryOf(s, w).timer}, queued := s.queued - {w}) else s
  }

  /** The schedule without the entries of these workflows and without their timers. */
  function WithoutWorkflows(s: Schedule, workflows: set<WorkflowId>): (r: Schedule)
    requires Sane(s)
    ensures Sane(r)
  {
    s.(queued := s.queued - workflows, live := s.live - TimersOf(s, workflows))
  }

  lemma NothingRemoved(s: Schedule)
    requires Sane(s)
    ensures WithoutWorkflows(s, {}) == s
  {
  }

  lemma RemovedOneByOne(s: Schedule, removed: set<WorkflowId>, w: WorkflowId)
    requires Sane(s) && w in s.queued && w !in removed
    ensures Dequeued(WithoutWorkflows(s, removed), w) == WithoutWorkflows(s, removed + {w})
  {
    assert TimersOf(s, removed + {w}) == TimersOf(s, removed) + {EntryOf(s, w).timer};
    assert s.live - TimersOf(s, removed) - {EntryOf(s, w).timer} == s.live - TimersOf(s, removed + {w});
    assert s.queued - removed - {w} == s.queued - (removed + {w});
  }

  /** The timeout after one more failure: doubled up to the maximum, unless an isolate
      error is to blame. */
  function NextTimeout(lastTimeout: nat, isolate: bool): nat {
    if !isolate && lastTimeout < MAX_TIMEOUT then Min(lastTimeout * 2, MAX_TIMEOUT) else lastTimeout
  }

  /** A failed retry goes back on a timer if its workflow is still queued. The new timer
      is stored in whatever entry the workflow has now. */
  function Rescheduled(s: Schedule, retry: Retry, isolate: bool): (r: Schedule)
    requires Sane(s)
    ensures Sane(r)
  {
    if retry.workflow !in s.queued then s
    else
      var entry := EntryOf(s, retry.workflow);
      s.(activations := s.activations[s.queued[retry.workflow] :=
           entry.(lastTimeout := NextTimeout(entry.lastTimeout, isolate), timer := s.nextTimer,
                  failures := entry.failures + if isolate then 0 else 1)],
         live := s.live[s.nextTimer := retry], nextTimer := s.nextTimer + 1)
  }

  function Enqueued(s: Schedule, w: WorkflowId): (r: Schedule)
    requires Sane(s)
    ensures Sane(r)
  {
    var d := Dequeued(s, w);
    d.(queued := d.queued[w := |d.activations|],
       activations := d.activations + [Activation(w, INITIAL_TIMEOUT, d.nextTimer, 0)],
       live := d.live[d.nextTimer := Retry(w, |d.activations|)], nextTimer := d.nextTimer + 1)
  }

  /** The schedule after an event; an impossible one changes nothing. */
  function After(s: Schedule, event: Event): (r: Schedule)
    requires Sane(s)
    ensures Sane(r)
  {
    match event
    case Enqueue(w) => Enqueued(s, w)
    case Remove(w) => Dequeued(s, w)
    case RemoveAll =>
      WithoutWorkflows(s, s.queued.Keys)
    case Fire(t) =>
      if t in s.live then s.(live := s.live - {t}, inFlight := s.inFlight[t := s.live[t]]) else s
    case Succeed(r) =>
      if r in s.inFlight then Dequeued(s.(inFlight := s.inFlight - {r}), s.inFlight[r].workflow) else s
    case Refuse(r) =>
      if r !in s.inFlight then s
      else
        var ended := s.(inFlight := s.inFlight - {r});
        var retry := s.inFlight[r];
        if retry.workflow in s.queued && s.queued[retry.workflow] == retry.own
        then Dequeued(ended, retry.workflow) else ended
    case Fail(r, isolate) =>
      if r in s.inFlight then Rescheduled(s.(inFlight := s.inFlight - {r}), s.inFlight[r], isolate) else s
  }

  const EMPTY: Schedule := Schedule(map[], [], map[], map[], 0)

  function AfterAll(s: Schedule, events: seq<Event>): (r: Schedule)
    requires Sane(s)
    ensures Sane(r)
    decreases |events|
  {
    if events == [] then s else AfterAll(After(s, events[0]), events[1..])
  }

  // ---- Back-off ----

  function Backoff(failures: nat): nat {
    Min(INITIAL_TIMEOUT * Pow2(failures), MAX_TIMEOUT)
  }

  lemma {:induction false} CapReachedAt(k: nat)
    ensures Backoff(k) == MAX_TIMEOUT <==> 17 <= k
  {
    assert Pow2(4) == 16 && Pow2(8) == 256 && Pow2(12) == 4096 && Pow2(16) == 65536;
    if k <= 16 {
      Pow2Grows(k, 16);
    } else {
      assert Pow2(17) == 131072;
      Pow2Grows(17, k);
    }
  }

  ghost predicate BackedOff(s: Schedule) {
    forall i :: 0 <= i < |s.activations| ==> s.activations[i].lastTimeout == Backoff(s.activations[i].failures)
  }

  lemma OneMoreFailure(k: nat)
    ensures NextTimeout(Backoff(k), false) == Backoff(k + 1)
    ensures NextTimeout(Backoff(k), true) == Backoff(k)
  {
  }

  lemma EventKeepsBackoff(s: Schedule, event: Event)
    requires Sane(s) && BackedOff(s)
    ensures BackedOff(After(s, event))
  {
    if event.Fail? && event.retry in s.inFlight && s.inFlight[event.retry].workflow in s.queued {
      OneMoreFailure(EntryOf(s, s.inFlight[event.retry].workflow).failures);
    } else if event.Enqueue? {
      assert Backoff(0) == INITIAL_TIMEOUT;
    }
  }

  lemma {:induction false} RunKeepsBackoff(s: Schedule, events: seq<Event>)
    requires Sane(s) && BackedOff(s)
    ensures BackedOff(AfterAll(s, events))
    decreases |events|
  {
    if events != [] {
      EventKeepsBackoff(s, events[0]);
      RunKeepsBackoff(After(s, events[0]), events[1..]);
    }
  }

  /** In every interleaving, an entry charged with k failures that were not isolate
      errors waits min(1000 * 2^k, one day). */
  lemma TimeoutFollowsFailures(events: seq<Event>, i: nat)
    requires i < |AfterAll(EMPTY, events).activations|
    ensures var a := AfterAll(EMPTY, events).activations[i];
            a.lastTimeout == Min(1000 * Pow2(a.failures), 86_400_000)
  {
    RunKeepsBackoff(EMPTY, events);
  }

  // ---- Timers ----

  /** Every live timer is the one its workflow's entry holds. */
  ghost predicate TimersHeld(s: Schedule)
    requires Sane(s)
  {
    forall t :: t in s.live ==> s.live[t].workflow in s.queued && EntryOf(s, s.live[t].workflow).timer == t
  }

  /** The guard of a leak: a failing retry overwrites the handle of a timer still live. */
  predicate LeaksTimer(s: Schedule, event: Event)
    requires Sane(s)
  {
    && event.Fail? && event.retry in s.inFlight
    && s.inFlight[event.retry].workflow in s.queued
    && EntryOf(s, s.inFlight[event.retry].workflow).timer in s.live
  }

  lemma LiveTimerBelongs(s: Schedule, w: WorkflowId)
    requires Sane(s) && TimersHeld(s) && w in s.queued && EntryOf(s, w).timer in s.live
    ensures s.live[EntryOf(s, w).timer].workflow == w
  {
  }

  lemma DequeuedKeepsTimers(s: Schedule, w: WorkflowId)
    requires Sane(s) && TimersHeld(s)
    ensures TimersHeld(Dequeued(s, w))
    ensures forall t :: t in Dequeued(s, w).live ==> s.live[t].workflow != w
  {
  }

  lemma EnqueuedKeepsTimers(s: Schedule, w: WorkflowId)
    requires Sane(s) && TimersHeld(s)
    ensures TimersHeld(Enqueued(s, w))
  {
  }

  lemma FireKeepsTimers(s: Schedule, t: TimerId)
    requires Sane(s) && TimersHeld(s)
    ensures TimersHeld(After(s, Fire(t)))
  {
  }

  lemma RemoveAllKeepsTimers(s: Schedule)
    requires Sane(s) && TimersHeld(s)
    ensures TimersHeld(After(s, RemoveAll)) && After(s, RemoveAll).live == map[]
  {
  }

  lemma RescheduledTimers(s: Schedule, retry: Retry, isolate: bool)
    requires Sane(s) && TimersHeld(s)
    ensures TimersHeld(Rescheduled(s, retry, isolate)) <==>
            !(retry.workflow in s.queued && EntryOf(s, retry.workflow).timer in s.live)
  {
    var s' := Rescheduled(s, retry, isolate);
    var w := retry.workflow;
    if w in s.queued {
      assert EntryOf(s', w).timer == s.nextTimer;
      if EntryOf(s, w).timer in s.live {
        LiveTimerBelongs(s, w);
        assert EntryOf(s, w).timer in s'.live;
      }
    }
  }

  /** A single event breaks that exactly when its guard holds. */
  lemma TimersHeldExactlyUnlessLeaked(s: Schedule, event: Event)
    requires Sane(s) && TimersHeld(s)
    ensures TimersHeld(After(s, event)) <==> !LeaksTimer(s, event)
  {
    match event {
      case Enqueue(w) => EnqueuedKeepsTimers(s, w);
      case Remove(w) => DequeuedKeepsTimers(s, w);
      case RemoveAll => RemoveAllKeepsTimers(s);
      case Fire(t) => FireKeepsTimers(s, t);
      case Succeed(r) =>
        if r in s.inFlight {
          DequeuedKeepsTimers(s.(inFlight := s.inFlight - {r}), s.inFlight[r].workflow);
        }
      case Refuse(r) =>
        if r in s.inFlight {
          DequeuedKeepsTimers(s.(inFlight := s.inFlight - {r}), s.inFlight[r].workflow);
        }
      case Fail(r, isolate) =>
        if r in s.inFlight {
          RescheduledTimers(s.(inFlight := s.inFlight - {r}), s.inFlight[r], isolate);
        }
    }
  }

  lemma AfterOne(s: Schedule, a: Event)
    requires Sane(s)
    ensures AfterAll(s, [a]) == After(s, a)
  {
  }

  lemma AfterTwo(s: Schedule, a: Event, b: Event)
    requires Sane(s)
    ensures AfterAll(s, [a, b]) == After(After(s, a), b)
  {
    assert [a, b][1..] == [b];
    AfterOne(After(s, a), b);
  }

  lemma AfterThree(s: Schedule, a: Event, b: Event, c: Event)
    requires Sane(s)
    ensures AfterAll(s, [a, b, c]) == After(After(After(s, a), b), c)
  {
    assert [a, b, c][1..] == [b, c];
    AfterTwo(After(s, a), b, c);
  }

  /** A run into a leak: a workflow is queued anew while its retry is under way, and then
      that retry fails. The timer of the new entry stays live and nobody holds it. */
  lemma RequeueDuringRetryLeaks(w: WorkflowId)
    ensures var s := AfterAll(EMPTY, [Enqueue(w), Fire(0), Enqueue(w)]);
            && LeaksTimer(s, Fail(0, false))
            && 1 in After(s, Fail(0, false)).live && After(s, Fail(0, false)).live[1].workflow == w
            && w in After(s, Fail(0, false)).queued && EntryOf(After(s, Fail(0, false)), w).timer != 1
  {
    AfterThree(EMPTY, Enqueue(w), Fire(0), Enqueue(w));
    var fired := After(After(EMPTY, Enqueue(w)), Fire(0));
    assert fired.live == map[] && fired.inFlight == map[0 := Retry(w, 0)];
  }

  // ---- Progress: what each event achieves ----

  /** Queuing a workflow makes a fresh entry with the initial timeout and a live timer of its
      own; the timer of an entry it had before is cleared. */
  lemma EnqueueArms(s: Schedule, w: WorkflowId)
    requires Sane(s)
    ensures var s' := After(s, Enqueue(w));
            && w in s'.queued && s'.queued[w] == |s.activations|
            && EntryOf(s', w).lastTimeout == 1000 && EntryOf(s', w).failures == 0
            && EntryOf(s', w).timer in s'.live && s'.live[EntryOf(s', w).timer] == Retry(w, |s.activations|)
            && EntryOf(s', w).timer !in s.live
            && (w in s.queued ==> EntryOf(s, w).timer !in s'.live)
            && (forall x :: x != w ==> (x in s'.queued <==> x in s.queued) && (x in s.queued ==> s'.queued[x] == s.queued[x]))
            && s'.activations[..|s.activations|] == s.activations && s'.inFlight == s.inFlight
  {
  }

  /** Removing an entry dequeues its workflow and clears the timer it holds, and no other. */
  lemma RemoveClears(s: Schedule, w: WorkflowId)
    requires Sane(s)
    ensures var s' := After(s, Remove(w));
            && w !in s'.queued
            && (forall x :: x != w && x in s.queued ==> x in s'.queued && s'.queued[x] == s.queued[x])
            && (w in s.queued ==> EntryOf(s, w).timer !in s'.live)
            && (forall t :: t in s.live && (w in s.queued ==> t != EntryOf(s, w).timer) ==> t in s'.live && s'.live[t] == s.live[t])
            && s'.activations == s.activations && s'.inFlight == s.inFlight
  {
  }

  lemma RemoveAllEmpties(s: Schedule)
    requires Sane(s)
    ensures After(s, RemoveAll).queued == map[]
    ensures forall w :: w in s.queued ==> EntryOf(s, w).timer !in After(s, RemoveAll).live
    ensures After(s, RemoveAll).activations == s.activations && After(s, RemoveAll).inFlight == s.inFlight
  {
    assert After(s, RemoveAll).queued.Keys == {};
  }

  /** A timer that fires is spent and its retry under way; other timers are not touched. */
  lemma FireStartsRetry(s: Schedule, t: TimerId)
    requires Sane(s) && t in s.live
    ensures var s' := After(s, Fire(t));
            && t !in s'.live && t in s'.inFlight && s'.inFlight[t] == s.live[t]
            && (forall u :: u != t && u in s.live ==> u in s'.live && s'.live[u] == s.live[u])
            && s'.queued == s.queued && s'.activations == s.activations
  {
  }

  /** A retry that ends is no longer under way: success dequeues its workflow, a refusal does
      so only if the entry is the retry's own. */
  lemma RetryEnds(s: Schedule, r: TimerId)
    requires Sane(s) && r in s.inFlight
    ensures var w, s', u := s.inFlight[r].workflow, After(s, Succeed(r)), After(s, Refuse(r));
            && r !in s'.inFlight && w !in s'.queued && (w in s.queued ==> EntryOf(s, w).timer !in s'.live)
            && r !in u.inFlight
            && (w in u.queued <==> w in s.queued && s.queued[w] != s.inFlight[r].own)
            && (w in u.queued ==> u.queued == s.queued && u.live == s.live)
            && (forall x :: x != w && x in s.queued ==>
                  x in s'.queued && s'.queued[x] == s.queued[x] && x in u.queued && u.queued[x] == s.queued[x])
  {
  }

  /** A failed retry of a workflow that is still queued goes back on a new live timer, held
      by the workflow's entry. Its failure is counted and its timeout doubled up to one day,
      unless an isolate error is to blame; without an entry the retry is given up. */
  lemma FailedRetryGoesBack(s: Schedule, r: TimerId, isolate: bool)
    requires Sane(s) && r in s.inFlight
    ensures var w, s' := s.inFlight[r].workflow, After(s, Fail(r, isolate));
            && r !in s'.inFlight && s'.queued == s.queued
            && (w !in s.queued ==> s'.live == s.live && s'.activations == s.activations)
            && (w in s.queued ==>
                  var before, after := EntryOf(s, w), EntryOf(s', w);
                  && after.timer !in s.live && after.timer in s'.live && s'.live[after.timer] == s.inFlight[r]
                  && (forall t :: t in s.live ==> t in s'.live && s'.live[t] == s.live[t])
                  && after.failures == before.failures + (if isolate then 0 else 1)
                  && (isolate ==> after.lastTimeout == before.lastTimeout)
                  && (!isolate && before.lastTimeout <= 43_200_000 ==> after.lastTimeout == 2 * before.lastTimeout)
                  && (!isolate && 43_200_000 < before.lastTimeout <= 86_400_000 ==> after.lastTimeout == 86_400_000)
                  && (forall i :: 0 <= i < |s.activations| && i != s.queued[w] ==> s'.activations[i] == s.activations[i])
                  && |s'.activations| == |s.activations|)
  {
  }

  /** At most one live timer or retry in flight for each workflow. */
  ghost predicate OnePerWorkflow(s: Schedule) {
    && (forall t, u :: t in s.live && u in s.live && s.live[t].workflow == s.live[u].workflow ==> t == u)
    && (forall t, r :: t in s.live && r in s.inFlight ==> s.live[t].workflow != s.inFlight[r].workflow)
    && (forall q, r :: q in s.inFlight && r in s.inFlight && s.inFlight[q].workflow == s.inFlight[r].workflow ==> q == r)
  }

  /** The discipline: nothing is queued for a workflow while a retry of it is in flight. */
  ghost predicate Quiet(s: Schedule, event: Event) {
    event.Enqueue? ==> forall r :: r in s.inFlight ==> s.inFlight[r].workflow != event.workflow
  }

  ghost predicate QuietRun(s: Schedule, events: seq<Event>)
    requires Sane(s)
    decreases |events|
  {
    events == [] ||
    (Quiet(s, events[0]) && QuietRun(After(s, events[0]), events[1..]))
  }

  /** A workflow with a retry in flight has no live timer, and no second retry. */
  ghost predicate RetriesAlone(s: Schedule) {
    && (forall t, r :: t in s.live && r in s.inFlight ==> s.live[t].workflow != s.inFlight[r].workflow)
    && (forall q, r :: q in s.inFlight && r in s.inFlight && s.inFlight[q].workflow == s.inFlight[r].workflow ==> q == r)
  }

  lemma HeldTimersAreUnique(s: Schedule)
    requires Sane(s) && TimersHeld(s) && RetriesAlone(s)
    ensures OnePerWorkflow(s)
  {
  }

  /** Fewer timers and fewer retries stay alone. */
  lemma FewerRetriesAlone(s: Schedule, s': Schedule)
    requires RetriesAlone(s)
    requires forall t :: t in s'.live ==> t in s.live && s'.live[t] == s.live[t]
    requires forall r :: r in s'.inFlight ==> r in s.inFlight && s'.inFlight[r] == s.inFlight[r]
    ensures RetriesAlone(s')
  {
  }

  lemma EnqueueKeepsRetriesAlone(s: Schedule, w: WorkflowId)
    requires Sane(s) && TimersHeld(s) && RetriesAlone(s) && Quiet(s, Enqueue(w))
    ensures RetriesAlone(Enqueued(s, w))
  {
  }

  lemma FireKeepsRetriesAlone(s: Schedule, t: TimerId)
    requires Sane(s) && TimersHeld(s) && RetriesAlone(s) && t in s.live
    ensures RetriesAlone(After(s, Fire(t)))
  {
  }

  lemma FailKeepsRetriesAlone(s: Schedule, r: TimerId, isolate: bool)
    requires Sane(s) && RetriesAlone(s) && r in s.inFlight
    ensures RetriesAlone(After(s, Fail(r, isolate)))
  {
  }

  lemma QuietEventKeepsRetriesAlone(s: Schedule, event: Event)
    requires Sane(s) && TimersHeld(s) && RetriesAlone(s) && Quiet(s, event)
    ensures RetriesAlone(After(s, event))
  {
    match event {
      case Enqueue(w) => EnqueueKeepsRetriesAlone(s, w);
      case Fire(t) =>
        if t in s.live {
          FireKeepsRetriesAlone(s, t);
        }
      case Fail(r, isolate) =>
        if r in s.inFlight {
          FailKeepsRetriesAlone(s, r, isolate);
        }
      case _ => FewerRetriesAlone(s, After(s, event));
    }
  }

  lemma QuietEventKeepsTimers(s: Schedule, event: Event)
    requires Sane(s) && TimersHeld(s) && RetriesAlone(s) && Quiet(s, event)
    ensures TimersHeld(After(s, event)) && RetriesAlone(After(s, event))
  {
    if LeaksTimer(s, event) {
      LiveTimerBelongs(s, s.inFlight[event.retry].workflow);
    }
    TimersHeldExactlyUnlessLeaked(s, event);
    QuietEventKeepsRetriesAlone(s, event);
  }

  lemma {:induction false} QuietRunKeepsTimers(s: Schedule, events: seq<Event>)
    requires Sane(s) && TimersHeld(s) && RetriesAlone(s) && QuietRun(s, events)
    ensures TimersHeld(AfterAll(s, events)) && RetriesAlone(AfterAll(s, events))
    decreases |events|
  {
    if events != [] {
      QuietEventKeepsTimers(s, events[0]);
      QuietRunKeepsTimers(After(s, events[0]), events[1..]);
    }
  }

  /** In every quiet run each workflow has at most one live timer or retry in flight, and
      each live timer is held by its entry; so removing entries leaves no timer behind. */
  lemma QuietRunsNeverDouble(events: seq<Event>, w: WorkflowId)
    requires QuietRun(EMPTY, events)
    ensures var s := AfterAll(EMPTY, events);
            && TimersHeld(s) && OnePerWorkflow(s)
            && (forall t :: t in After(s, Remove(w)).live ==> After(s, Remove(w)).live[t].workflow != w)
            && After(s, RemoveAll).live == map[]
  {
    QuietRunKeepsTimers(EMPTY, events);
    HeldTimersAreUnique(AfterAll(EMPTY, events));
    DequeuedKeepsTimers(AfterAll(EMPTY, events), w);
  }
}
