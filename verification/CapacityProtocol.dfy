/** The life of registry entries and of the concurrency slots they hold, as a
    transition system over the synchronous segments of the registry's methods.
    Entries are objects: the registry refers to them by execution id, their settle
    handlers by identity, which is their position in `entries`. */
module CapacityProtocol {
  import opened ResumeProtocol

  type ExecId = string

  type AddId = nat

  /** A capacity reservation, with the number of times it gave its slot back. */
  datatype Reservation = Reservation(acquired: bool, releases: nat)

  /** An entry: whether its post-execution promise has settled, and whether the handler
      that runs after it settles has run. */
  datatype Entry = Entry(
    exec: ExecId, status: Status, attached: bool, settled: bool, handled: bool, reservation: Reservation)

  /** A call of `add` that is still waiting for capacity or for the database. */
  datatype Pending = Pending(exec: ExecId, evaluation: bool, reservation: Reservation)

  datatype Registry = Registry(
    active: map<ExecId, nat>, entries: seq<Entry>, pending: map<AddId, Pending>,
    failed: seq<Reservation>, // reservations of adds that failed
    taken: int)               // slots taken from the concurrency control

  datatype Event =
    | BeginAdd(add: AddId, exec: ExecId, evaluation: bool)
    | Reserve(add: AddId)
    | FailAdd(add: AddId)
    | Register(add: AddId)
    | Attach(exec: ExecId)
    | SetStatus(exec: ExecId, status: Status)
    | Stop(exec: ExecId)
    | Finalize(exec: ExecId)
    | Settle(entry: nat)

  const FRESH: Reservation := Reservation(false, 0)

  /** Releasing is a no-op on a reservation that holds nothing. */
  function Released(r: Reservation): Reservation {
    if r.acquired then Reservation(false, r.releases + 1) else r
  }

  function Slots(r: Reservation): nat {
    if r.acquired then 1 else 0
  }

  predicate InRegistry(s: Registry, exec: ExecId) {
    exec in s.active && s.active[exec] < |s.entries|
  }

  function EntryOf(s: Registry, exec: ExecId): Entry
    requires InRegistry(s, exec)
  {
    s.entries[s.active[exec]]
  }

  function PutEntry(s: Registry, i: nat, e: Entry): Registry
    requires i < |s.entries|
  {
    s.(entries := s.entries[i := e])
  }

  /** The registry after one synchronous segment; an impossible one changes nothing. */
  function After(s: Registry, event: Event): Registry {
    match event
    case BeginAdd(add, exec, evaluation) =>
      if add in s.pending then s else s.(pending := s.pending[add := Pending(exec, evaluation, FRESH)])
    case Reserve(add) =>
      if add in s.pending && !s.pending[add].evaluation && s.pending[add].reservation == FRESH then
        s.(pending := s.pending[add := s.pending[add].(reservation := Reservation(true, 0))], taken := s.taken + 1)
      else s
    case FailAdd(add) =>
      if add in s.pending then
        s.(pending := s.pending - {add}, failed := s.failed + [Released(s.pending[add].reservation)],
           taken := s.taken - Slots(s.pending[add].reservation))
      else s
    case Register(add) =>
      if add in s.pending then
        var p := s.pending[add];
        s.(pending := s.pending - {add},
           active := s.active[p.exec := |s.entries|],
           entries := s.entries + [Entry(p.exec, Running, false, false, false, p.reservation)])
      else s
    case Attach(exec) =>
      if InRegistry(s, exec) then PutEntry(s, s.active[exec], EntryOf(s, exec).(attached := true)) else s
    case SetStatus(exec, status) =>
      if InRegistry(s, exec) then PutEntry(s, s.active[exec], EntryOf(s, exec).(status := status)) else s
    case Stop(exec) =>
      if !InRegistry(s, exec) then s
      else if EntryOf(s, exec).status.Waiting? then s.(active := s.active - {exec})
      else PutEntry(s, s.active[exec], EntryOf(s, exec).(settled := true))
    case Finalize(exec) =>
      if InRegistry(s, exec) then PutEntry(s, s.active[exec], EntryOf(s, exec).(settled := true)) else s
    case Settle(i) =>
      if i < |s.entries| && s.entries[i].settled && !s.entries[i].handled then
        var e := s.entries[i];
        var s' := PutEntry(s, i, e.(handled := true, reservation := Released(e.reservation),
                                    attached := e.attached && !e.status.Waiting?))
                  .(taken := s.taken - Slots(e.reservation));
        if e.status.Waiting? then s' else s'.(active := s.active - {e.exec})
      else s
  }

  function AfterAll(s: Registry, events: seq<Event>): Registry
    decreases |events|
  {
    if events == [] then s else AfterAll(After(s, events[0]), events[1..])
  }

  const EMPTY: Registry := Registry(map[], [], map[], [], 0)

  // ---- Accounting ----

  ghost function HeldPending(s: Registry): set<AddId> {
    set a | a in s.pending && s.pending[a].reservation.acquired
  }

  ghost function HeldEntries(s: Registry): set<nat> {
    Holders(s.entries)
  }

  ghost function Holders(entries: seq<Entry>): set<nat> {
    set i: nat | i < |entries| && entries[i].reservation.acquired
  }

  lemma HoldersAppend(entries: seq<Entry>, e: Entry)
    ensures |Holders(entries + [e])| == |Holders(entries)| + Slots(e.reservation)
  {
    var n: nat := |entries|;
    var more := entries + [e];
    assert n !in Holders(entries);
    assert Holders(more) == if e.reservation.acquired then Holders(entries) + {n} else Holders(entries);
  }

  lemma HoldersUpdate(entries: seq<Entry>, i: nat, e: Entry)
    requires i < |entries|
    requires e.reservation.acquired ==> entries[i].reservation.acquired
    ensures |Holders(entries[i := e])| == |Holders(entries)| - Slots(entries[i].reservation) + Slots(e.reservation)
  {
    var after := entries[i := e];
    assert Holders(after) == if e.reservation.acquired then Holders(entries) else Holders(entries) - {i};
  }

  /** No reservation gives its slot back twice, nor while it still holds it. */
  ghost predicate ReleasedOnce(r: Reservation) {
    r.releases <= 1 && (r.acquired ==> r.releases == 0)
  }

  ghost predicate Accounted(s: Registry) {
    && s.taken == |HeldPending(s)| + |HeldEntries(s)|
    && Sane(s)
  }

  ghost predicate Sane(s: Registry) {
    && (forall a :: a in s.pending ==> ReleasedOnce(s.pending[a].reservation))
    && (forall i :: 0 <= i < |s.failed| ==> ReleasedOnce(s.failed[i]) && !s.failed[i].acquired)
    && (forall i :: 0 <= i < |s.entries| ==>
          ReleasedOnce(s.entries[i].reservation) && (s.entries[i].handled ==> !s.entries[i].reservation.acquired))
    && (forall x :: x in s.active ==> s.active[x] < |s.entries| && s.entries[s.active[x]].exec == x)
  }

  /** Changing an entry without touching its reservation keeps the accounts. */
  lemma EntryChangeKeepsAccounts(s: Registry, i: nat, e: Entry)
    requires Accounted(s) && i < |s.entries|
    requires e.exec == s.entries[i].exec && e.reservation == s.entries[i].reservation
    requires e.handled == s.entries[i].handled
    ensures Accounted(PutEntry(s, i, e))
  {
    HoldersUpdate(s.entries, i, e);
  }

  lemma ReserveKeepsAccounts(s: Registry, add: AddId)
    requires Accounted(s)
    ensures Accounted(After(s, Reserve(add)))
  {
    var s' := After(s, Reserve(add));
    if s' != s {
      assert HeldPending(s') == HeldPending(s) + {add};
      assert HeldEntries(s') == HeldEntries(s);
    }
  }

  /** An `add` stops being pending: its slot is released or passed on. */
  lemma PendingRemoved(s: Registry, s': Registry, add: AddId)
    requires add in s.pending && s'.pending == s.pending - {add}
    ensures |HeldPending(s')| == |HeldPending(s)| - Slots(s.pending[add].reservation)
  {
    assert HeldPending(s') == HeldPending(s) - {add};
  }

  lemma FailAddKeepsAccounts(s: Registry, add: AddId)
    requires Accounted(s)
    ensures Accounted(After(s, FailAdd(add)))
  {
    var s' := After(s, FailAdd(add));
    if add in s.pending {
      PendingRemoved(s, s', add);
      assert HeldEntries(s') == HeldEntries(s);
    }
  }

  lemma RegisterIsSane(s: Registry, add: AddId)
    requires Sane(s)
    ensures Sane(After(s, Register(add)))
  {
  }

  lemma RegisterKeepsAccounts(s: Registry, add: AddId)
    requires Accounted(s)
    ensures Accounted(After(s, Register(add)))
  {
    var s' := After(s, Register(add));
    RegisterIsSane(s, add);
    if add in s.pending {
      PendingRemoved(s, s', add);
      HoldersAppend(s.entries, s'.entries[|s.entries|]);
    }
  }

  lemma SettleIsSane(s: Registry, i: nat)
    requires Sane(s)
    ensures Sane(After(s, Settle(i)))
  {
  }

  lemma SettleKeepsAccounts(s: Registry, i: nat)
    requires Accounted(s)
    ensures Accounted(After(s, Settle(i)))
  {
    var s' := After(s, Settle(i));
    SettleIsSane(s, i);
    assert s'.pending == s.pending;
    if i < |s.entries| && s.entries[i].settled && !s.entries[i].handled {
      HoldersUpdate(s.entries, i, s'.entries[i]);
    }
  }

  lemma EventKeepsAccounts(s: Registry, event: Event)
    requires Accounted(s)
    ensures Accounted(After(s, event))
  {
    match event {
      case Register(add) => RegisterKeepsAccounts(s, add);
      case Settle(i) => SettleKeepsAccounts(s, i);
      case Attach(exec) =>
        if InRegistry(s, exec) {
          EntryChangeKeepsAccounts(s, s.active[exec], EntryOf(s, exec).(attached := true));
        }
      case SetStatus(exec, status) =>
        if InRegistry(s, exec) {
          EntryChangeKeepsAccounts(s, s.active[exec], EntryOf(s, exec).(status := status));
        }
      case Stop(exec) =>
        if InRegistry(s, exec) {
          EntryChangeKeepsAccounts(s, s.active[exec], EntryOf(s, exec).(settled := true));
          assert HeldEntries(s.(active := s.active - {exec})) == HeldEntries(s);
          assert HeldPending(s.(active := s.active - {exec})) == HeldPending(s);
        }
      case Finalize(exec) =>
        if InRegistry(s, exec) {
          EntryChangeKeepsAccounts(s, s.active[exec], EntryOf(s, exec).(settled := true));
        }
      case Reserve(add) => ReserveKeepsAccounts(s, add);
      case FailAdd(add) => FailAddKeepsAccounts(s, add);
      case BeginAdd(_, _, _) =>
        assert HeldPending(After(s, event)) == HeldPending(s);
        assert HeldEntries(After(s, event)) == HeldEntries(s);
    }
  }

  lemma {:induction false} RunKeepsAccounts(s: Registry, events: seq<Event>)
    requires Accounted(s)
    ensures Accounted(AfterAll(s, events))
    decreases |events|
  {
    if events != [] {
      EventKeepsAccounts(s, events[0]);
      RunKeepsAccounts(After(s, events[0]), events[1..]);
    }
  }

  /** In every run the slots taken are exactly those held by a pending `add` or by an
      entry; no reservation gives its slot back more than once, whether it is pending, has
      failed or belongs to an entry; and a failed or handled one holds none. */
  lemma SlotsAreConserved(events: seq<Event>)
    ensures var s := AfterAll(EMPTY, events);
            && s.taken == |HeldPending(s)| + |HeldEntries(s)|
            && (forall a :: a in s.pending ==> s.pending[a].reservation.releases <= 1)
            && (forall i :: 0 <= i < |s.failed| ==> s.failed[i].releases <= 1 && !s.failed[i].acquired)
            && (forall i :: 0 <= i < |s.entries| ==>
                  && s.entries[i].reservation.releases <= 1
                  && (s.entries[i].handled ==> !s.entries[i].reservation.acquired))
  {
    assert HeldEntries(EMPTY) == {} && HeldPending(EMPTY) == {};
    RunKeepsAccounts(EMPTY, events);
  }

  // ---- Progress: what each segment achieves ----

  /** Everything but that entry is as before. */
  ghost predicate OnlyEntryChanges(s: Registry, s': Registry, i: nat) {
    && |s'.entries| == |s.entries|
    && (forall j :: 0 <= j < |s.entries| && j != i ==> s'.entries[j] == s.entries[j])
    && s'.pending == s.pending && s'.failed == s.failed
  }

  /** Finalising a registered execution, or stopping one that does not wait, settles its own
      entry; stopping a waiting one only takes it out of the registry. */
  lemma FinalizeSettles(s: Registry, exec: ExecId)
    requires Accounted(s) && exec in s.active
    ensures var i, s' := s.active[exec], After(s, Finalize(exec));
            && OnlyEntryChanges(s, s', i) && s'.active == s.active && s'.taken == s.taken
            && s'.entries[i].settled && s'.entries[i].handled == s.entries[i].handled
            && s'.entries[i].exec == exec && s'.entries[i].status == s.entries[i].status
            && s'.entries[i].attached == s.entries[i].attached && s'.entries[i].reservation == s.entries[i].reservation
    ensures !s.entries[s.active[exec]].status.Waiting? ==> After(s, Stop(exec)) == After(s, Finalize(exec))
    ensures s.entries[s.active[exec]].status.Waiting? ==>
              var s' := After(s, Stop(exec));
              && exec !in s'.active && (forall x :: x != exec && x in s.active ==> x in s'.active && s'.active[x] == s.active[x])
              && s'.entries == s.entries && s'.pending == s.pending && s'.taken == s.taken
  {
  }

  /** The handler of a settled entry gives back exactly the slot the entry holds, and
      unregisters its execution unless it waits; a waiting entry only drops its attachment. */
  lemma SettleGivesBack(s: Registry, i: nat)
    requires Accounted(s) && i < |s.entries| && s.entries[i].settled && !s.entries[i].handled
    ensures var e, s' := s.entries[i], After(s, Settle(i));
            && OnlyEntryChanges(s, s', i)
            && s'.taken == s.taken - (if e.reservation.acquired then 1 else 0)
            && s'.entries[i].handled && !s'.entries[i].reservation.acquired
            && s'.entries[i].exec == e.exec && s'.entries[i].status == e.status
            && (e.status.Waiting? ==> s'.active == s.active && !s'.entries[i].attached)
            && (!e.status.Waiting? ==>
                  && e.exec !in s'.active && s'.entries[i].attached == e.attached
                  && forall x :: x != e.exec && x in s.active ==> x in s'.active && s'.active[x] == s.active[x])
  {
  }

  /** Status and attachment change on the registered entry alone; without one nothing does. */
  lemma RegisteredEntryChanges(s: Registry, exec: ExecId, status: Status)
    requires Accounted(s)
    ensures exec !in s.active ==>
              After(s, SetStatus(exec, status)) == After(s, Attach(exec)) == After(s, Finalize(exec)) == After(s, Stop(exec)) == s
    ensures exec in s.active ==>
              var i, t, u := s.active[exec], After(s, SetStatus(exec, status)), After(s, Attach(exec));
              && OnlyEntryChanges(s, t, i) && t.active == s.active && t.taken == s.taken
              && t.entries[i].status == status && t.entries[i].settled == s.entries[i].settled
              && t.entries[i].reservation == s.entries[i].reservation && t.entries[i].attached == s.entries[i].attached
              && OnlyEntryChanges(s, u, i) && u.active == s.active && u.taken == s.taken
              && u.entries[i].attached && u.entries[i].status == s.entries[i].status
              && u.entries[i].settled == s.entries[i].settled && u.entries[i].reservation == s.entries[i].reservation
  {
  }

  /** An `add` begins without a slot and takes one when capacity is granted, unless it is an
      evaluation; failing gives it back; registering hands it to a new entry that runs and
      is the registered one of its execution. */
  lemma AddProceeds(s: Registry, add: AddId, exec: ExecId, evaluation: bool)
    requires Accounted(s)
    ensures add !in s.pending ==>
              var s' := After(s, BeginAdd(add, exec, evaluation));
              && add in s'.pending && s'.pending[add] == Pending(exec, evaluation, Reservation(false, 0))
              && s'.entries == s.entries && s'.active == s.active && s'.taken == s.taken
    ensures add in s.pending && s.pending[add].reservation == FRESH ==>
              var s' := After(s, Reserve(add));
              && add in s'.pending && s'.pending[add].exec == s.pending[add].exec
              && s'.pending[add].reservation.acquired == !s.pending[add].evaluation
              && s'.taken == s.taken + (if s.pending[add].evaluation then 0 else 1)
              && s'.entries == s.entries && s'.active == s.active
    ensures add in s.pending ==>
              var held := if s.pending[add].reservation.acquired then 1 else 0;
              var f, r := After(s, FailAdd(add)), After(s, Register(add));
              && add !in f.pending && f.taken == s.taken - held && f.entries == s.entries && f.active == s.active
              && add !in r.pending && r.taken == s.taken && |r.entries| == |s.entries| + 1
              && r.entries[..|s.entries|] == s.entries
              && r.active == s.active[s.pending[add].exec := |s.entries|]
              && var e := r.entries[|s.entries|];
                 && e.exec == s.pending[add].exec && e.status.Running? && !e.settled && !e.handled && !e.attached
                 && e.reservation == s.pending[add].reservation
  {
  }

  /** The life of an execution, finalised or stopped: nothing stays registered or taken. One
      that is waiting when it is finalised stays registered, without its slot. */
  lemma ExecutionsComeAndGo(exec: ExecId, end: Event)
    requires end == Finalize(exec) || end == Stop(exec)
    ensures var s := AfterAll(EMPTY, [BeginAdd(0, exec, false), Reserve(0), Register(0)] + [end, Settle(0)]);
            s.taken == 0 && s.pending == map[] && s.active == map[]
    ensures var s := AfterAll(EMPTY, [BeginAdd(0, exec, false), Reserve(0), Register(0)] +
                                     [SetStatus(exec, Waiting), Finalize(exec), Settle(0)] + []);
            s.taken == 0 && s.pending == map[] && s.active == map[exec := 0]
            && |s.entries| == 1 && s.entries[0].status.Waiting?
  {
    var start := [BeginAdd(0, exec, false), Reserve(0), Register(0)];
    var registered := After(After(After(EMPTY, start[0]), start[1]), start[2]);
    AfterThree(EMPTY, start[0], start[1], start[2], [end, Settle(0)]);
    assert registered.active == map[exec := 0] && registered.pending == map[] && registered.taken == 1;
    assert registered.entries == [Entry(exec, Running, false, false, false, Reservation(true, 0))];
    AfterTwo(registered, end, Settle(0));
    var rest := [SetStatus(exec, Waiting), Finalize(exec), Settle(0)] + [];
    AfterThree(EMPTY, start[0], start[1], start[2], rest);
    AfterThree(registered, SetStatus(exec, Waiting), Finalize(exec), Settle(0), []);
    assert start + rest == start + [SetStatus(exec, Waiting), Finalize(exec), Settle(0)] + [];
  }

  // ---- No slot is orphaned ----

  ghost predicate Registered(s: Registry, i: nat)
    requires i < |s.entries|
  {
    s.entries[i].exec in s.active && s.active[s.entries[i].exec] == i
  }

  /** Every held slot belongs to a registered entry or to one whose promise has settled,
      so that its handler is still going to release it. */
  ghost predicate NoOrphan(s: Registry) {
    forall i :: 0 <= i < |s.entries| && s.entries[i].reservation.acquired ==>
      s.entries[i].settled || Registered(s, i)
  }

  /** Dropping this entry from the registry loses its slot. */
  predicate LosesSlot(s: Registry, exec: ExecId) {
    InRegistry(s, exec) && EntryOf(s, exec).reservation.acquired && !EntryOf(s, exec).settled
  }

  /** The guard under which a step orphans a slot: it drops an entry that still holds one
      and has not settled, by stopping it while it waits, by registering a second entry
      for its id, or because another entry's handler removes by id. */
  predicate Orphans(s: Registry, event: Event) {
    match event
    case Stop(exec) => LosesSlot(s, exec) && EntryOf(s, exec).status.Waiting?
    case Register(add) => add in s.pending && LosesSlot(s, s.pending[add].exec)
    case Settle(i) =>
      && i < |s.entries| && s.entries[i].settled && !s.entries[i].handled && !s.entries[i].status.Waiting?
      && LosesSlot(s, s.entries[i].exec) && s.active[s.entries[i].exec] != i
    case _ => false
  }

  lemma GuardedStepOrphans(s: Registry, event: Event, exec: ExecId)
    requires Accounted(s) && Orphans(s, event)
    requires exec == match event
                     case Stop(x) => x
                     case Register(add) => s.pending[add].exec
                     case Settle(i) => s.entries[i].exec
                     case _ => exec
    ensures !NoOrphan(After(s, event))
  {
    var s' := After(s, event);
    var lost := s.active[exec];
    assert s'.entries[lost].reservation.acquired && !s'.entries[lost].settled && !Registered(s', lost);
  }

  lemma UnguardedStepKeepsEntry(s: Registry, event: Event, i: nat)
    requires Accounted(s) && !Orphans(s, event) && i < |s.entries|
    requires s.entries[i].settled || Registered(s, i)
    requires i < |After(s, event).entries| && After(s, event).entries[i].reservation.acquired
    ensures After(s, event).entries[i].settled || Registered(After(s, event), i)
  {
  }

  /** A single step orphans a slot exactly when that guard holds. */
  lemma OrphansExactlyWhenGuarded(s: Registry, event: Event)
    requires Accounted(s) && NoOrphan(s)
    ensures NoOrphan(After(s, event)) <==> !Orphans(s, event)
  {
    var s' := After(s, event);
    if Orphans(s, event) {
      match event {
        case Stop(exec) => GuardedStepOrphans(s, event, exec);
        case Register(add) => GuardedStepOrphans(s, event, s.pending[add].exec);
        case Settle(i) => GuardedStepOrphans(s, event, s.entries[i].exec);
        case _ =>
      }
    } else {
      forall i | 0 <= i < |s'.entries| && s'.entries[i].reservation.acquired
        ensures s'.entries[i].settled || Registered(s', i)
      {
        if i < |s.entries| {
          UnguardedStepKeepsEntry(s, event, i);
        }
      }
    }
  }

  lemma AfterOne(s: Registry, a: Event)
    ensures AfterAll(s, [a]) == After(s, a)
  {
  }

  lemma AfterTwo(s: Registry, a: Event, b: Event)
    ensures AfterAll(s, [a, b]) == After(After(s, a), b)
  {
    assert [a, b][1..] == [b];
    AfterOne(After(s, a), b);
  }

  lemma AfterThree(s: Registry, a: Event, b: Event, c: Event, rest: seq<Event>)
    ensures AfterAll(s, [a, b, c] + rest) == AfterAll(After(After(After(s, a), b), c), rest)
  {
    assert ([a, b, c] + rest)[1..] == [b, c] + rest;
    assert ([b, c] + rest)[1..] == [c] + rest;
    assert ([c] + rest)[1..] == rest;
    var next := After(s, a);
    assert AfterAll(next, [b, c] + rest) == AfterAll(After(next, b), [c] + rest);
    assert AfterAll(After(next, b), [c] + rest) == AfterAll(After(After(next, b), c), rest);
  }

  /** A run that orphans a slot: an execution is added, goes waiting, and is stopped
      before its promise has settled. Nothing is pending or registered any more, and the
      slot stays taken. */
  lemma StopWhileWaitingOrphans(exec: ExecId)
    ensures var s := AfterAll(EMPTY, [BeginAdd(0, exec, false), Reserve(0), Register(0)] + [SetStatus(exec, Waiting), Stop(exec)]);
            && s.taken == 1 && s.pending == map[] && s.active == map[] && !NoOrphan(s)
  {
    AfterThree(EMPTY, BeginAdd(0, exec, false), Reserve(0), Register(0), [SetStatus(exec, Waiting), Stop(exec)]);
    var registered := After(After(After(EMPTY, BeginAdd(0, exec, false)), Reserve(0)), Register(0));
    assert registered.pending == map[] && registered.active == map[exec := 0];
    AfterTwo(registered, SetStatus(exec, Waiting), Stop(exec));
    var s := After(After(registered, SetStatus(exec, Waiting)), Stop(exec));
    assert s.entries[0].reservation.acquired && !s.entries[0].settled && !Registered(s, 0);
  }

  /** The discipline under which whole runs are safe: a waiting entry is stopped, and an
      execution registered again, only after the entry's settle handler has run. */
  ghost predicate Careful(s: Registry, event: Event) {
    && (event.Stop? && InRegistry(s, event.exec) && EntryOf(s, event.exec).status.Waiting? ==>
          EntryOf(s, event.exec).handled)
    && (event.Register? && event.add in s.pending && InRegistry(s, s.pending[event.add].exec) ==>
          EntryOf(s, s.pending[event.add].exec).handled)
  }

  ghost predicate CarefulRun(s: Registry, events: seq<Event>)
    decreases |events|
  {
    events == [] || (Careful(s, events[0]) && CarefulRun(After(s, events[0]), events[1..]))
  }

  /** An entry whose handler has not run is the registered one of its execution. */
  ghost predicate UnhandledAreRegistered(s: Registry) {
    forall i :: 0 <= i < |s.entries| && !s.entries[i].handled ==> Registered(s, i)
  }

  /** An entry that is still unhandled after a step was so before, unless it is new. */
  lemma CarefulStepKeepsRegistered(s: Registry, event: Event)
    requires Accounted(s) && UnhandledAreRegistered(s) && Careful(s, event)
    ensures UnhandledAreRegistered(After(s, event))
  {
    var s' := After(s, event);
    forall i | 0 <= i < |s'.entries| && !s'.entries[i].handled
      ensures Registered(s', i)
    {
      if i < |s.entries| {
        assert Registered(s, i);
        assert event.Settle? && event.entry < |s.entries| && !s.entries[event.entry].handled ==> Registered(s, event.entry);
        CarefulStepKeepsEntry(s, event, i);
      }
    }
  }

  lemma CarefulStepKeepsEntry(s: Registry, event: Event, i: nat)
    requires Accounted(s) && Careful(s, event) && i < |s.entries| && Registered(s, i)
    requires i < |After(s, event).entries| && !After(s, event).entries[i].handled
    requires event.Settle? && event.entry < |s.entries| && !s.entries[event.entry].handled ==> Registered(s, event.entry)
    ensures Registered(After(s, event), i)
  {
  }

  lemma {:induction false} CarefulRunKeepsRegistered(s: Registry, events: seq<Event>)
    requires Accounted(s) && UnhandledAreRegistered(s) && CarefulRun(s, events)
    ensures Accounted(AfterAll(s, events)) && UnhandledAreRegistered(AfterAll(s, events))
    decreases |events|
  {
    if events != [] {
      EventKeepsAccounts(s, events[0]);
      CarefulStepKeepsRegistered(s, events[0]);
      CarefulRunKeepsRegistered(After(s, events[0]), events[1..]);
    }
  }

  /** In every careful run no slot is orphaned; once no `add` is pending and the registry
      is empty, every slot has been given back. */
  lemma CarefulRunsOrphanNothing(events: seq<Event>)
    requires CarefulRun(EMPTY, events)
    ensures var s := AfterAll(EMPTY, events);
            && NoOrphan(s)
            && (s.pending == map[] && s.active == map[] ==> s.taken == 0)
  {
    assert HeldEntries(EMPTY) == {} && HeldPending(EMPTY) == {};
    CarefulRunKeepsRegistered(EMPTY, events);
    var s := AfterAll(EMPTY, events);
    if s.pending == map[] && s.active == map[] {
      assert HeldPending(s) == {};
      assert HeldEntries(s) == {};
    }
  }
}
