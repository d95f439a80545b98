/** `replaceInvalidCredentials`: repairing credential references node by node,
    with a cache that is shared across nodes and across workflows. */
module CredentialRepair {
  import opened Wrappers

  // ---- References and the credentials table ----

  /** A node's credential slot: nothing, an old-style bare name, or details whose
      id may be null. */
  datatype Reference =
    | Absent
    | BareName(name: string)
    | Details(id: Option<string>, name: string, managed: bool)

  /** A stored credential; `shared` are the projects it is shared with. */
  datatype Record = Record(id: string, name: string, typeName: string, projectScope: bool, shared: set<string>)

  /** Ids are primary keys. */
  ghost predicate UniqueIds(records: seq<Record>) {
    forall i, j :: 0 <= i < j < |records| ==> records[i].id != records[j].id
  }

  predicate Matches(record: Record, name: string, typeName: string, project: string) {
    record.name == name && record.typeName == typeName && record.projectScope && project in record.shared
  }

  /** All records of that name and type in the project. */
  function FindByNameAndType(records: seq<Record>, name: string, typeName: string, project: string): (r: seq<Record>)
    ensures forall c :: c in r <==> c in records && Matches(c, name, typeName, project)
  {
    if records == [] then []
    else
      var rest := FindByNameAndType(records[1..], name, typeName, project);
      if Matches(records[0], name, typeName, project) then [records[0]] + rest else rest
  }

  /** Each of them is found as often as it is stored, and nothing else is: whether a name is
      unique is read off the number of records found. */
  lemma {:induction false} FoundAsOftenAsStored(records: seq<Record>, name: string, typeName: string, project: string)
    ensures forall c :: multiset(FindByNameAndType(records, name, typeName, project))[c] ==
              if Matches(c, name, typeName, project) then multiset(records)[c] else 0
  {
    if records != [] {
      FoundAsOftenAsStored(records[1..], name, typeName, project);
      assert records == [records[0]] + records[1..];
    }
  }

  function FindOneBy(records: seq<Record>, id: string, typeName: string): (r: Option<Record>)
    ensures r.Some? ==> r.value in records && r.value.id == id && r.value.typeName == typeName
    ensures r.None? ==> forall c :: c in records ==> c.id != id || c.typeName != typeName
  {
    if records == [] then None
    else if records[0].id == id && records[0].typeName == typeName then Some(records[0])
    else FindOneBy(records[1..], id, typeName)
  }

  lemma FoundById(records: seq<Record>, c: Record)
    requires UniqueIds(records) && c in records
    ensures FindOneBy(records, c.id, c.typeName) == Some(c)
  {
  }

  // ---- The lookup without a cache ----

  function Resolved(record: Record): Reference {
    Details(Some(record.id), record.name, false)
  }

  /** The record of that name if it is the only one, otherwise the given fallback. */
  function DirectByName(records: seq<Record>, project: string, typeName: string, name: string, fallback: Reference)
    : Reference
  {
    var found := FindByNameAndType(records, name, typeName, project);
    if |found| == 1 then Resolved(found[0]) else fallback
  }

  /** What a reference becomes when every step asks the table. */
  function Direct(records: seq<Record>, project: string, typeName: string, ref: Reference): Reference
  {
    match ref
    case Absent => ref
    case BareName(name) => DirectByName(records, project, typeName, name, ref)
    case Details(None, name, _) => DirectByName(records, project, typeName, name, ref)
    case Details(Some(id), name, _) =>
      var byId := FindOneBy(records, id, typeName);
      if byId.Some? then Resolved(byId.value) else DirectByName(records, project, typeName, name, ref)
  }

  /** A bare name and details without an id say the same. */
  function Normal(ref: Reference): Reference {
    if ref.BareName? then Details(None, ref.name, false) else ref
  }

  const UNSAFE_PROPERTIES: set<string> := {
    "__proto__", "prototype", "constructor", "getPrototypeOf", "setPrototypeOf",
    "getOwnPropertyDescriptor", "getOwnPropertyDescriptors", "defineProperty", "defineProperties",
    "mainModule", "binding", "_linkedBinding", "_load", "prepareStackTrace", "__lookupGetter__",
    "__lookupSetter__", "__defineGetter__", "__defineSetter__", "caller", "callee", "arguments",
    "getBuiltinModule", "dlopen", "execve", "loadEnvFile"
  }

  /** Whether the repair looks at this slot at all. */
  predicate Visited(typeName: string, ref: Reference) {
    && typeName !in UNSAFE_PROPERTIES
    && !ref.Absent?
    && !(ref.Details? && ref.managed)
  }

  // ---- What a slot becomes, in terms of the stored records ----

  /** The record is the only one of that name and type in the project. */
  ghost predicate OnlyRecord(records: seq<Record>, project: string, typeName: string, name: string, i: int) {
    && 0 <= i < |records|
    && (forall j :: 0 <= j < |records| ==>
          (j == i <==>
             && records[j].name == name && records[j].typeName == typeName
             && records[j].projectScope && project in records[j].shared))
  }

  /** The record is stored under that id and type. */
  ghost predicate RecordOf(records: seq<Record>, typeName: string, id: string, i: int) {
    0 <= i < |records| && records[i].id == id && records[i].typeName == typeName
  }

  /** An unsafe type name, an empty slot and a managed credential are left alone. Any other
      reference names the stored record of its id and type; if it has no id or there is no
      such record, the only one of its name in the project; and otherwise what it did. */
  ghost predicate SlotBecomes(records: seq<Record>, project: string, typeName: string, ref: Reference, r: Reference) {
    if typeName in UNSAFE_PROPERTIES || ref.Absent? || (ref.Details? && ref.managed) then r == ref
    else if ref.Details? && ref.id.Some? && exists i :: RecordOf(records, typeName, ref.id.value, i) then
      exists i :: RecordOf(records, typeName, ref.id.value, i) && r == Details(Some(records[i].id), records[i].name, false)
    else if exists i :: OnlyRecord(records, project, typeName, ref.name, i) then
      exists i :: OnlyRecord(records, project, typeName, ref.name, i) && r == Details(Some(records[i].id), records[i].name, false)
    else Normal(r) == Normal(ref)
  }

  lemma {:induction false} FoundByIdIsStored(records: seq<Record>, id: string, typeName: string)
    ensures FindOneBy(records, id, typeName).Some? <==> exists i :: RecordOf(records, typeName, id, i)
    ensures FindOneBy(records, id, typeName).Some? ==>
              exists i :: RecordOf(records, typeName, id, i) && records[i] == FindOneBy(records, id, typeName).value
  {
    var r := FindOneBy(records, id, typeName);
    if r.Some? {
      var i :| 0 <= i < |records| && records[i] == r.value;
      assert RecordOf(records, typeName, id, i);
    } else {
      forall i
        ensures !RecordOf(records, typeName, id, i)
      {
        if 0 <= i < |records| {
          assert records[i] in records;
        }
      }
    }
  }

  /** One record is found exactly if one index holds a match, and then it is that one. */
  lemma {:induction false} FoundOnce(records: seq<Record>, project: string, typeName: string, name: string)
    ensures var found := FindByNameAndType(records, name, typeName, project);
            && (|found| == 1 <==> exists i :: OnlyRecord(records, project, typeName, name, i))
            && (forall i :: |found| == 1 && OnlyRecord(records, project, typeName, name, i) ==> found[0] == records[i])
  {
    var found := FindByNameAndType(records, name, typeName, project);
    if records != [] {
      FoundOnce(records[1..], project, typeName, name);
      var rest := FindByNameAndType(records[1..], name, typeName, project);
      assert records == [records[0]] + records[1..];
      if Matches(records[0], name, typeName, project) {
        assert |found| == 1 <==> rest == [];
        if rest == [] {
          forall j | 0 < j < |records|
            ensures !Matches(records[j], name, typeName, project)
          {
            assert records[j] == records[1..][j - 1];
          }
          assert OnlyRecord(records, project, typeName, name, 0);
        } else {
          assert rest[0] in rest;
          var j :| 0 <= j < |records[1..]| && records[1..][j] == rest[0];
          assert records[j + 1] == rest[0] && Matches(records[j + 1], name, typeName, project);
        }
      } else {
        OnlyInTail(records, project, typeName, name);
      }
    }
  }

  lemma OnlyInTail(records: seq<Record>, project: string, typeName: string, name: string)
    requires records != [] && !Matches(records[0], name, typeName, project)
    ensures forall i :: OnlyRecord(records, project, typeName, name, i) ==>
              i > 0 && OnlyRecord(records[1..], project, typeName, name, i - 1)
    ensures forall i :: OnlyRecord(records[1..], project, typeName, name, i) ==>
              OnlyRecord(records, project, typeName, name, i + 1)
  {
    forall i | OnlyRecord(records, project, typeName, name, i)
      ensures i > 0 && OnlyRecord(records[1..], project, typeName, name, i - 1)
    {
      assert Matches(records[i], name, typeName, project);
    }
    forall i | OnlyRecord(records[1..], project, typeName, name, i)
      ensures OnlyRecord(records, project, typeName, name, i + 1)
    {
      forall j | 0 <= j < |records|
        ensures Matches(records[j], name, typeName, project) <==> j == i + 1
      {
        assert j > 0 ==> records[j] == records[1..][j - 1];
      }
    }
  }

  /** The uncached lookup, and whatever agrees with it up to the spelling of a bare name. */
  lemma DirectFindsTheRecord(records: seq<Record>, project: string, typeName: string, ref: Reference, r: Reference)
    requires Visited(typeName, ref) && Normal(r) == Normal(Direct(records, project, typeName, ref))
    ensures SlotBecomes(records, project, typeName, ref, r)
  {
    FoundOnce(records, project, typeName, ref.name);
    if ref.Details? && ref.id.Some? {
      FoundByIdIsStored(records, ref.id.value, typeName);
    }
  }

  /** Repairing twice changes nothing, up to the spelling of an unresolved name. */
  lemma DirectIdempotent(records: seq<Record>, project: string, typeName: string, ref: Reference, once: Reference)
    requires UniqueIds(records) && Visited(typeName, ref)
    requires Normal(once) == Normal(Direct(records, project, typeName, ref))
    ensures Visited(typeName, once)
    ensures Normal(Direct(records, project, typeName, once)) == Normal(once)
  {
    var direct := Direct(records, project, typeName, ref);
    if direct != ref {
      var byName := FindByNameAndType(records, ref.name, typeName, project);
      if ref.Details? && ref.id.Some? && FindOneBy(records, ref.id.value, typeName).Some? {
        FoundById(records, FindOneBy(records, ref.id.value, typeName).value);
      } else {
        assert byName[0] in byName;
        FoundById(records, byName[0]);
      }
    }
  }

  // ---- The cache ----

  /** The serialised cache keys: one key space per leading tag. */
  datatype CacheKey =
    | ByName(typeName: string, name: string)
    | ById(typeName: string, id: string)
    | ByIdAndName(typeName: string, id: string, name: string)

  ghost predicate SoundEntry(records: seq<Record>, project: string, key: CacheKey, entry: Reference) {
    match key
    case ByName(typeName, name) => entry == Normal(Direct(records, project, typeName, BareName(name)))
    case ById(typeName, id) =>
      FindOneBy(records, id, typeName).Some? && entry == Resolved(FindOneBy(records, id, typeName).value)
    case ByIdAndName(typeName, id, name) =>
      entry == Direct(records, project, typeName, Details(Some(id), name, false))
  }

  ghost predicate SoundCache(records: seq<Record>, project: string, entries: map<CacheKey, Reference>) {
    forall key :: key in entries ==> SoundEntry(records, project, key, entries[key])
  }

  /** The question a reference puts to the table. */
  ghost function Demand(typeName: string, ref: Reference): CacheKey
    requires Visited(typeName, ref)
  {
    if ref.Details? && ref.id.Some? then ByIdAndName(typeName, ref.id.value, ref.name)
    else ByName(typeName, ref.name)
  }

  /** The cache answers that question without a query. */
  ghost predicate Answered(entries: map<CacheKey, Reference>, demand: CacheKey) {
    demand in entries || (demand.ByIdAndName? && ById(demand.typeName, demand.id) in entries)
  }

  /** One query for a name, two for an id with a name. */
  ghost function Price(demand: CacheKey): nat {
    if demand.ByIdAndName? then 2 else 1
  }

  ghost function TotalPrice(demands: set<CacheKey>): nat {
    |set d | d in demands && !d.ByIdAndName?| + 2 * |set d | d in demands && d.ByIdAndName?|
  }

  lemma TotalPriceAdd(demands: set<CacheKey>, demand: CacheKey)
    ensures TotalPrice(demands + {demand}) == TotalPrice(demands) + (if demand in demands then 0 else Price(demand))
  {
    var all := demands + {demand};
    if demand in demands {
      assert all == demands;
    } else if demand.ByIdAndName? {
      assert (set d | d in all && d.ByIdAndName?) == (set d | d in demands && d.ByIdAndName?) + {demand};
      assert (set d | d in all && !d.ByIdAndName?) == (set d | d in demands && !d.ByIdAndName?);
    } else {
      assert (set d | d in all && d.ByIdAndName?) == (set d | d in demands && d.ByIdAndName?);
      assert (set d | d in all && !d.ByIdAndName?) == (set d | d in demands && !d.ByIdAndName?) + {demand};
    }
  }

  class Cache {
    var entries: map<CacheKey, Reference>

    constructor ()
      ensures entries == map[]
    {
      entries := map[];
    }
  }

  class CredentialsRepository {
    const records: seq<Record>
    /** How many queries were issued. */
    var queries: nat

    constructor (records: seq<Record>)
      ensures this.records == records && queries == 0
    {
      this.records := records;
      queries := 0;
    }

    method FindByNameAndTypeInProject(name: string, typeName: string, project: string) returns (r: seq<Record>)
      modifies this
      ensures r == FindByNameAndType(records, name, typeName, project) && queries == old(queries) + 1
    {
      queries := queries + 1;
      r := FindByNameAndType(records, name, typeName, project);
    }

    method FindOne(id: string, typeName: string) returns (r: Option<Record>)
      modifies this
      ensures r == FindOneBy(records, id, typeName) && queries == old(queries) + 1
    {
      queries := queries + 1;
      r := FindOneBy(records, id, typeName);
    }
  }

  /** A reference in the old style, without an id. */
  method RepairByName(repository: CredentialsRepository, project: string, cache: Cache, typeName: string, ref: Reference)
    returns (r: Reference)
    requires Visited(typeName, ref) && (ref.Details? ==> ref.id.None?)
    requires SoundCache(repository.records, project, cache.entries)
    modifies cache, repository
    ensures Normal(r) == Normal(Direct(repository.records, project, typeName, ref))
    ensures SlotBecomes(repository.records, project, typeName, ref, r)
    ensures SoundCache(repository.records, project, cache.entries)
    ensures old(cache.entries).Keys <= cache.entries.Keys && Answered(cache.entries, Demand(typeName, ref))
    ensures repository.queries == old(repository.queries) +
                                  if Answered(old(cache.entries), Demand(typeName, ref)) then 0 else 1
  {
    DirectFindsTheRecord(
      repository.records, project, typeName, ref, Direct(repository.records, project, typeName, ref));
    var key := ByName(typeName, ref.name);
    assert key in cache.entries ==> SoundEntry(repository.records, project, key, cache.entries[key]);
    if key !in cache.entries {
      var credentials := repository.FindByNameAndTypeInProject(ref.name, typeName, project);
      if |credentials| == 1 {
        r := Resolved(credentials[0]);
        cache.entries := cache.entries[key := r];
        return;
      }
      cache.entries := cache.entries[key := Details(None, ref.name, false)];
      r := ref;
    } else {
      r := cache.entries[key];
    }
  }

  /** A reference with an id: by id first, then by name within the project. */
  method RepairById(repository: CredentialsRepository, project: string, cache: Cache, typeName: string, ref: Reference)
    returns (r: Reference)
    requires UniqueIds(repository.records)
    requires Visited(typeName, ref) && ref.Details? && ref.id.Some?
    requires SoundCache(repository.records, project, cache.entries)
    modifies cache, repository
    ensures Normal(r) == Normal(Direct(repository.records, project, typeName, ref))
    ensures SlotBecomes(repository.records, project, typeName, ref, r)
    ensures SoundCache(repository.records, project, cache.entries)
    ensures old(cache.entries).Keys <= cache.entries.Keys && Answered(cache.entries, Demand(typeName, ref))
    ensures repository.queries <= old(repository.queries) +
                                  if Answered(old(cache.entries), Demand(typeName, ref)) then 0 else 2
  {
    var id := ref.id.value;
    var idKey := ById(typeName, id);
    var idAndNameKey := ByIdAndName(typeName, id, ref.name);
    if idAndNameKey in cache.entries {
      assert SoundEntry(repository.records, project, idAndNameKey, cache.entries[idAndNameKey]);
      DirectFindsTheRecord(repository.records, project, typeName, ref, cache.entries[idAndNameKey]);
      return cache.entries[idAndNameKey];
    }
    if idKey !in cache.entries {
      var credentials := repository.FindOne(id, typeName);
      if credentials.Some? {
        r := Resolved(credentials.value);
        DirectFindsTheRecord(repository.records, project, typeName, ref, r);
        cache.entries := cache.entries[idKey := r];
        return;
      }
      var byName := repository.FindByNameAndTypeInProject(ref.name, typeName, project);
      if |byName| == 1 {
        r := Resolved(byName[0]);
        assert byName[0] in byName;
        FoundById(repository.records, byName[0]);
        cache.entries := cache.entries[idAndNameKey := r];
        cache.entries := cache.entries[ById(typeName, byName[0].id) := r];
        DirectFindsTheRecord(repository.records, project, typeName, ref, r);
        return;
      }
      cache.entries := cache.entries[idAndNameKey := ref];
      DirectFindsTheRecord(repository.records, project, typeName, ref, ref);
      return ref;
    }
    assert SoundEntry(repository.records, project, idKey, cache.entries[idKey]);
    r := cache.entries[idKey];
    DirectFindsTheRecord(repository.records, project, typeName, ref, r);
  }

  // ---- Nodes and workflows ----

  class WorkflowNode {
    const disabled: bool
    var credentials: Option<map<string, Reference>>

    constructor (disabled: bool, credentials: Option<map<string, Reference>>)
      ensures this.disabled == disabled && this.credentials == credentials
    {
      this.disabled, this.credentials := disabled, credentials;
    }
  }

  /** The slots a repair looks at: none on a disabled node. */
  ghost function Slots(disabled: bool, credentials: Option<map<string, Reference>>): map<string, Reference> {
    if disabled || credentials.None? then map[] else credentials.value
  }

  /** Visited references ended as the direct lookup leaves them, the others are untouched. */
  ghost predicate SlotsRepaired(
    records: seq<Record>, project: string, before: map<string, Reference>, after: map<string, Reference>)
  {
    && after.Keys == before.Keys
    && forall t :: t in before ==>
      if Visited(t, before[t]) then Normal(after[t]) == Normal(Direct(records, project, t, before[t]))
      else after[t] == before[t]
  }

  /** What a repair makes of a node's credentials: a disabled node and one without
      credentials are left alone. Any other keeps its slots, each of which becomes what the
      stored records say. */
  ghost predicate CredentialsRepaired(
    records: seq<Record>, project: string, disabled: bool,
    before: Option<map<string, Reference>>, after: Option<map<string, Reference>>)
  {
    if disabled || before.None? then after == before
    else after.Some? && SlotsRepaired(records, project, before.value, after.value)
  }

  ghost predicate NodeBecomes(
    records: seq<Record>, project: string, disabled: bool,
    before: Option<map<string, Reference>>, after: Option<map<string, Reference>>)
  {
    if disabled || before.None? then after == before
    else
      && after.Some? && after.value.Keys == before.value.Keys
      && forall t :: t in before.value ==> SlotBecomes(records, project, t, before.value[t], after.value[t])
  }

  lemma RepairedNodeBecomes(
    records: seq<Record>, project: string, disabled: bool,
    before: Option<map<string, Reference>>, after: Option<map<string, Reference>>)
    requires CredentialsRepaired(records, project, disabled, before, after)
    ensures NodeBecomes(records, project, disabled, before, after)
  {
    if !disabled && before.Some? {
      forall t | t in before.value
        ensures SlotBecomes(records, project, t, before.value[t], after.value[t])
      {
        if Visited(t, before.value[t]) {
          DirectFindsTheRecord(records, project, t, before.value[t], after.value[t]);
        }
      }
    }
  }

  ghost function Demands(slots: map<string, Reference>): set<CacheKey> {
    set t | t in slots && Visited(t, slots[t]) :: Demand(t, slots[t])
  }

  /** A second repair leaves every slot as the first one did, up to normal form. */
  lemma RepairIdempotent(
    records: seq<Record>, project: string,
    original: map<string, Reference>, once: map<string, Reference>, twice: map<string, Reference>)
    requires UniqueIds(records)
    requires SlotsRepaired(records, project, original, once) && SlotsRepaired(records, project, once, twice)
    ensures forall t :: t in once ==> Normal(twice[t]) == Normal(once[t])
  {
    forall t | t in once
      ensures Normal(twice[t]) == Normal(once[t])
    {
      if Visited(t, original[t]) {
        DirectIdempotent(records, project, t, original[t], once[t]);
      }
    }
  }

  /** `asked` are the questions put so far, all answered by the cache. */
  ghost predicate Covers(entries: map<CacheKey, Reference>, asked: set<CacheKey>) {
    forall d :: d in asked ==> Answered(entries, d)
  }

  method RepairReference(
    repository: CredentialsRepository, project: string, cache: Cache, typeName: string, ref: Reference,
    ghost asked: set<CacheKey>)
    returns (r: Reference)
    requires UniqueIds(repository.records) && Visited(typeName, ref)
    requires SoundCache(repository.records, project, cache.entries) && Covers(cache.entries, asked)
    modifies cache, repository
    ensures Normal(r) == Normal(Direct(repository.records, project, typeName, ref))
    ensures SlotBecomes(repository.records, project, typeName, ref, r)
    ensures SoundCache(repository.records, project, cache.entries)
    ensures Covers(cache.entries, asked + {Demand(typeName, ref)})
    ensures repository.queries - old(repository.queries)
         <= TotalPrice(asked + {Demand(typeName, ref)}) - TotalPrice(asked)
  {
    TotalPriceAdd(asked, Demand(typeName, ref));
    if ref.BareName? || ref.id.None? {
      r := RepairByName(repository, project, cache, typeName, ref);
    } else {
      r := RepairById(repository, project, cache, typeName, ref);
    }
  }

  method RepairNode(
    node: WorkflowNode, repository: CredentialsRepository, project: string, cache: Cache, ghost asked: set<CacheKey>)
    requires UniqueIds(repository.records)
    requires SoundCache(repository.records, project, cache.entries) && Covers(cache.entries, asked)
    modifies node, cache, repository
    ensures CredentialsRepaired(repository.records, project, node.disabled, old(node.credentials), node.credentials)
    ensures NodeBecomes(repository.records, project, node.disabled, old(node.credentials), node.credentials)
    ensures SoundCache(repository.records, project, cache.entries)
    ensures Covers(cache.entries, asked + Demands(Slots(node.disabled, old(node.credentials))))
    ensures repository.queries - old(repository.queries)
         <= TotalPrice(asked + Demands(Slots(node.disabled, old(node.credentials)))) - TotalPrice(asked)
  {
    if node.credentials.None? || node.disabled {
      assert Demands(Slots(node.disabled, node.credentials)) == {};
      assert asked + {} == asked;
      RepairedNodeBecomes(repository.records, project, node.disabled, node.credentials, node.credentials);
      return;
    }
    var all := node.credentials.value;
    var remaining := all.Keys;
    ghost var covered := asked;
    while remaining != {}
      invariant remaining <= all.Keys
      invariant node.credentials.Some? && node.credentials.value.Keys == all.Keys
      invariant forall t :: t in remaining ==> node.credentials.value[t] == all[t]
      invariant forall t :: t in all && t !in remaining ==>
                  if Visited(t, all[t])
                  then Normal(node.credentials.value[t]) == Normal(Direct(repository.records, project, t, all[t]))
                  else node.credentials.value[t] == all[t]
      invariant SoundCache(repository.records, project, cache.entries) && Covers(cache.entries, covered)
      invariant covered == asked + set t | t in all && t !in remaining && Visited(t, all[t]) :: Demand(t, all[t])
      invariant repository.queries - old(repository.queries) <= TotalPrice(covered) - TotalPrice(asked)
      decreases remaining
    {
      var t :| t in remaining;
      if Visited(t, all[t]) {
        var repaired := RepairReference(repository, project, cache, t, all[t], covered);
        node.credentials := Some(node.credentials.value[t := repaired]);
        covered := covered + {Demand(t, all[t])};
      }
      remaining := remaining - {t};
    }
    assert covered == asked + Demands(all);
    RepairedNodeBecomes(repository.records, project, node.disabled, Some(all), node.credentials);
  }

  ghost function CredentialsOf(nodes: seq<WorkflowNode>): (r: seq<Option<map<string, Reference>>>)
    reads nodes
    ensures |r| == |nodes| && forall i :: 0 <= i < |nodes| ==> r[i] == nodes[i].credentials
  {
    if nodes == [] then [] else CredentialsOf(nodes[..|nodes| - 1]) + [nodes[|nodes| - 1].credentials]
  }

  /** The questions that the nodes' references put to the table, repetitions counted once. */
  ghost function AllDemands(nodes: seq<WorkflowNode>, credentials: seq<Option<map<string, Reference>>>): set<CacheKey>
    requires |nodes| == |credentials|
  {
    if nodes == [] then {}
    else
      var n := |nodes| - 1;
      AllDemands(nodes[..n], credentials[..n]) + Demands(Slots(nodes[n].disabled, credentials[n]))
  }

  lemma DemandsUpTo(nodes: seq<WorkflowNode>, credentials: seq<Option<map<string, Reference>>>, i: nat)
    requires i < |nodes| == |credentials|
    ensures AllDemands(nodes[..i + 1], credentials[..i + 1])
         == AllDemands(nodes[..i], credentials[..i]) + Demands(Slots(nodes[i].disabled, credentials[i]))
  {
    assert nodes[..i + 1][..i] == nodes[..i];
    assert credentials[..i + 1][..i] == credentials[..i];
  }

  /** Repairs every node in place. However many nodes repeat a reference, it costs at
      most one query per distinct type and name and two per distinct type, id and name. */
  method ReplaceInvalidCredentials(
    nodes: seq<WorkflowNode>, project: string, repository: CredentialsRepository, cache: Cache)
    requires UniqueIds(repository.records)
    requires forall i, j :: 0 <= i < j < |nodes| ==> nodes[i] != nodes[j]
    requires SoundCache(repository.records, project, cache.entries)
    modifies nodes, cache, repository
    ensures forall i :: 0 <= i < |nodes| ==>
              CredentialsRepaired(repository.records, project, nodes[i].disabled,
                                  old(CredentialsOf(nodes))[i], nodes[i].credentials)
    ensures forall i :: 0 <= i < |nodes| ==>
              NodeBecomes(repository.records, project, nodes[i].disabled,
                          old(CredentialsOf(nodes))[i], nodes[i].credentials)
    ensures SoundCache(repository.records, project, cache.entries)
    ensures repository.queries - old(repository.queries) <= TotalPrice(AllDemands(nodes, old(CredentialsOf(nodes))))
  {
    ghost var before := CredentialsOf(nodes);
    RepairNodes(nodes, project, repository, cache, before);
    forall i | 0 <= i < |nodes|
      ensures NodeBecomes(repository.records, project, nodes[i].disabled, before[i], nodes[i].credentials)
    {
      RepairedNodeBecomes(repository.records, project, nodes[i].disabled, before[i], nodes[i].credentials);
    }
  }

  /** The loop over the nodes, whose credentials start out as `before`. */
  method RepairNodes(
    nodes: seq<WorkflowNode>, project: string, repository: CredentialsRepository, cache: Cache,
    ghost before: seq<Option<map<string, Reference>>>)
    requires UniqueIds(repository.records)
    requires forall i, j :: 0 <= i < j < |nodes| ==> nodes[i] != nodes[j]
    requires |before| == |nodes| && forall i :: 0 <= i < |nodes| ==> nodes[i].credentials == before[i]
    requires SoundCache(repository.records, project, cache.entries)
    modifies nodes, cache, repository
    ensures forall i :: 0 <= i < |nodes| ==>
              CredentialsRepaired(repository.records, project, nodes[i].disabled, before[i], nodes[i].credentials)
    ensures SoundCache(repository.records, project, cache.entries)
    ensures repository.queries - old(repository.queries) <= TotalPrice(AllDemands(nodes, before))
  {
    ghost var asked := {};
    for i := 0 to |nodes|
      invariant forall j :: i <= j < |nodes| ==> nodes[j].credentials == before[j]
      invariant forall j :: 0 <= j < i ==>
                  CredentialsRepaired(repository.records, project, nodes[j].disabled, before[j], nodes[j].credentials)
      invariant SoundCache(repository.records, project, cache.entries) && Covers(cache.entries, asked)
      invariant asked == AllDemands(nodes[..i], before[..i])
      invariant repository.queries - old(repository.queries) <= TotalPrice(asked)
    {
      RepairNode(nodes[i], repository, project, cache, asked);
      DemandsUpTo(nodes, before, i);
      asked := asked + Demands(Slots(nodes[i].disabled, before[i]));
    }
    assert nodes[..|nodes|] == nodes && before[..|nodes|] == before;
  }
}
