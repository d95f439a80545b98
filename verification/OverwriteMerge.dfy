/** Merging overwrite tables along the hierarchy: the reference definition, and
    why a table holding raw, partly merged and fully merged entries side by side
    still answers lookups correctly. */
module OverwriteMerge {
  import opened Wrappers
  import opened TypeHierarchy
  import opened CredentialTypes

  /** Primitive credential field values. */
  datatype Value = Undefined | Null | Text(text: string) | Number(number: real) | Flag(flag: bool)

  type Fields = map<string, Value>

  type Table = map<TypeName, Fields>

  function EntryOf(table: Table, t: TypeName): Fields {
    if t in table then table[t] else map[]
  }

  ghost predicate SubMap(a: Fields, b: Fields) {
    forall k :: k in a ==> k in b && a[k] == b[k]
  }

  /** The merge in which an earlier type in the list beats every later one. */
  ghost function NearestWins(table: Table, types: seq<TypeName>): Fields {
    if types == [] then map[] else NearestWins(table, types[1..]) + EntryOf(table, types[0])
  }

  /** The merge field by field: a field comes from the first type that defines it. */
  lemma {:induction false} NearestDefines(table: Table, types: seq<TypeName>, k: string)
    ensures k in NearestWins(table, types) <==> exists i :: 0 <= i < |types| && k in EntryOf(table, types[i])
    ensures forall i :: 0 <= i < |types| && k in EntryOf(table, types[i])
                     && (forall j :: 0 <= j < i ==> k !in EntryOf(table, types[j]))
                     ==> NearestWins(table, types)[k] == EntryOf(table, types[i])[k]
  {
    if types != [] {
      NearestDefines(table, types[1..], k);
      if k in NearestWins(table, types[1..]) {
        var i :| 0 <= i < |types[1..]| && k in EntryOf(table, types[1..][i]);
        assert types[i + 1] == types[1..][i];
      }
      forall i | 0 < i < |types| && k in EntryOf(table, types[i])
              && (forall j :: 0 <= j < i ==> k !in EntryOf(table, types[j]))
        ensures NearestWins(table, types)[k] == EntryOf(table, types[i])[k]
      {
        assert types[1..][i - 1] == types[i];
        assert k !in EntryOf(table, types[0]);
        forall j | 0 <= j < i - 1
          ensures k !in EntryOf(table, types[1..][j])
        {
          assert types[1..][j] == types[j + 1];
        }
      }
    }
  }

  lemma OverrideAssociates(a: Fields, b: Fields, c: Fields)
    ensures a + (b + c) == (a + b) + c
  {
  }

  lemma {:induction false} NearestWinsAppend(table: Table, a: seq<TypeName>, b: seq<TypeName>)
    ensures NearestWins(table, a + b) == NearestWins(table, b) + NearestWins(table, a)
  {
    if a == [] {
      assert a + b == b;
    } else {
      assert (a + b)[1..] == a[1..] + b && (a + b)[0] == a[0];
      NearestWinsAppend(table, a[1..], b);
      OverrideAssociates(NearestWins(table, b), NearestWins(table, a[1..]), EntryOf(table, a[0]));
    }
  }

  lemma EntryInMerge(table: Table, types: seq<TypeName>, t: TypeName)
    requires t in types
    ensures EntryOf(table, t) + NearestWins(table, types) == NearestWins(table, types)
  {
  }

  /** Repetitions in the list of types do not matter. */
  lemma {:induction false} NearestWinsIgnoresRepetitions(table: Table, types: seq<TypeName>)
    ensures NearestWins(table, types) == NearestWins(table, FirstOccurrences(types))
  {
    if types != [] {
      var front, last := types[..|types| - 1], types[|types| - 1];
      assert types == front + [last];
      NearestWinsIgnoresRepetitions(table, front);
      NearestWinsAppend(table, front, [last]);
      NearestWinsAppend(table, FirstOccurrences(front), [last]);
      SingleMerge(table, last);
      if last in front {
        EntryInMerge(table, front, last);
      }
    }
  }

  lemma SingleMerge(table: Table, t: TypeName)
    ensures NearestWins(table, [t]) == EntryOf(table, t)
  {
  }

  /** The true merge of a table at a type: itself first, then its ancestors, nearest first. */
  ghost function Merged(h: Hierarchy, rank: Rank, table: Table, t: TypeName): Fields
    requires Acyclic(h, rank) && Linear(h, rank, t)
  {
    NearestWins(table, [t] + Chain(h, rank, t))
  }

  lemma MergedUnfolds(h: Hierarchy, rank: Rank, table: Table, t: TypeName)
    requires Acyclic(h, rank) && Linear(h, rank, t)
    ensures ParentsOf(h, t) == [] ==> Merged(h, rank, table, t) == EntryOf(table, t)
    ensures ParentsOf(h, t) != [] ==>
              Merged(h, rank, table, t) == Merged(h, rank, table, ParentsOf(h, t)[0]) + EntryOf(table, t)
  {
    assert ([t] + Chain(h, rank, t))[1..] == Chain(h, rank, t);
    assert NearestWins(table, []) + EntryOf(table, t) == EntryOf(table, t);
  }

  /** What a lookup must return: nothing if no type on the chain has an entry. */
  ghost function Effective(h: Hierarchy, rank: Rank, table: Table, t: TypeName): Option<Fields>
    requires Acyclic(h, rank) && Linear(h, rank, t)
  {
    if exists a :: a in [t] + Chain(h, rank, t) && a in table
    then Some(Merged(h, rank, table, t)) else None
  }

  /** A stored entry is at least the type's raw entry and at most its true merge. */
  ghost predicate SoundEntry(h: Hierarchy, rank: Rank, raw: Table, t: TypeName, entry: Fields)
    requires Acyclic(h, rank) && Linear(h, rank, t)
  {
    SubMap(EntryOf(raw, t), entry) && SubMap(entry, Merged(h, rank, raw, t))
  }

  /** Every field is one that the raw entry of the type or of an ancestor gives it. */
  ghost predicate Drawn(h: Hierarchy, raw: Table, t: TypeName, entry: Fields) {
    forall k :: k in entry ==> exists a :: Reaches(h, t, a) && k in EntryOf(raw, a) && EntryOf(raw, a)[k] == entry[k]
  }

  /** In any hierarchy: entries keep the type's raw fields and draw on its ancestors. */
  ghost predicate Faithful(h: Hierarchy, raw: Table, table: Table) {
    && table.Keys == raw.Keys
    && forall t :: t in raw ==> SubMap(raw[t], table[t]) && Drawn(h, raw, t, table[t])
  }

  ghost predicate Sound(h: Hierarchy, rank: Rank, raw: Table, table: Table)
    requires Acyclic(h, rank)
  {
    && table.Keys == raw.Keys
    && forall t {:trigger t in raw} {:trigger table[t]} ::
         t in raw && Linear(h, rank, t) ==> SoundEntry(h, rank, raw, t, table[t])
  }

  lemma RawTableIsSound(h: Hierarchy, rank: Rank, raw: Table)
    requires Acyclic(h, rank)
    ensures Sound(h, rank, raw, raw) && Faithful(h, raw, raw)
  {
    forall t | t in raw
      ensures Drawn(h, raw, t, raw[t])
    {
      assert Reaches(h, t, t) && EntryOf(raw, t) == raw[t];
    }
  }

  lemma RewrittenEntryIsSound(h: Hierarchy, rank: Rank, raw: Table, table: Table, t: TypeName, entry: Fields)
    requires Acyclic(h, rank) && Sound(h, rank, raw, table) && Faithful(h, raw, table) && t in raw
    requires SubMap(raw[t], entry) && Drawn(h, raw, t, entry)
    requires Linear(h, rank, t) ==> SoundEntry(h, rank, raw, t, entry)
    ensures Sound(h, rank, raw, table[t := entry]) && Faithful(h, raw, table[t := entry])
  {
  }

  lemma DrawnFromAncestor(h: Hierarchy, raw: Table, t: TypeName, a: TypeName, entry: Fields)
    requires Reaches(h, t, a) && Drawn(h, raw, a, entry)
    ensures Drawn(h, raw, t, entry)
  {
    forall k | k in entry
      ensures exists b :: Reaches(h, t, b) && k in EntryOf(raw, b) && EntryOf(raw, b)[k] == entry[k]
    {
      var b :| Reaches(h, a, b) && k in EntryOf(raw, b) && EntryOf(raw, b)[k] == entry[k];
      ReachesComposes(h, t, a, b);
    }
  }

  lemma DrawnUnion(h: Hierarchy, raw: Table, t: TypeName, x: Fields, y: Fields)
    requires Drawn(h, raw, t, x) && Drawn(h, raw, t, y)
    ensures Drawn(h, raw, t, x + y)
  {
  }

  lemma {:induction false} SoundTableMergesAlike(h: Hierarchy, rank: Rank, raw: Table, table: Table, t: TypeName)
    requires Acyclic(h, rank) && Linear(h, rank, t) && Sound(h, rank, raw, table)
    ensures Merged(h, rank, table, t) == Merged(h, rank, raw, t)
    decreases RankOf(rank, t)
  {
    MergedUnfolds(h, rank, raw, t);
    MergedUnfolds(h, rank, table, t);
    assert t in raw ==> SoundEntry(h, rank, raw, t, table[t]);
    if ParentsOf(h, t) != [] {
      SoundTableMergesAlike(h, rank, raw, table, ParentsOf(h, t)[0]);
    }
  }

  /** Whatever mixture of raw and merged entries a sound table holds, lookups agree
      with the raw table. */
  lemma SoundTableAnswersAlike(h: Hierarchy, rank: Rank, raw: Table, table: Table, t: TypeName)
    requires Acyclic(h, rank) && Linear(h, rank, t) && Sound(h, rank, raw, table)
    ensures Effective(h, rank, table, t) == Effective(h, rank, raw, t)
  {
    SoundTableMergesAlike(h, rank, raw, table, t);
    assert forall a :: a in table <==> a in raw;
  }

  /** Reload stability: a table rewritten once, saved, and rewritten again by the
      instance that loads it still answers like the raw table. */
  lemma ReloadStable(h: Hierarchy, rank: Rank, raw: Table, saved: Table, reloaded: Table, t: TypeName)
    requires Acyclic(h, rank) && Linear(h, rank, t)
    requires Sound(h, rank, raw, saved) && Sound(h, rank, saved, reloaded)
    ensures Effective(h, rank, reloaded, t) == Effective(h, rank, raw, t)
  {
    SoundTableAnswersAlike(h, rank, raw, saved, t);
    SoundTableAnswersAlike(h, rank, saved, reloaded, t);
  }

  /** Merging a sound entry over something between nothing and the parent's true merge is sound. */
  lemma MergeOverParentIsSound(
    h: Hierarchy, rank: Rank, raw: Table, t: TypeName, inherited: Fields, entry: Fields)
    requires Acyclic(h, rank) && Linear(h, rank, t)
    requires ParentsOf(h, t) == [] ==> inherited == map[]
    requires ParentsOf(h, t) != [] ==> SubMap(inherited, Merged(h, rank, raw, ParentsOf(h, t)[0]))
    requires SoundEntry(h, rank, raw, t, entry)
    ensures SoundEntry(h, rank, raw, t, inherited + entry)
  {
  }

  // ---- The lookup as `get` computes it ----

  function Reversed(types: seq<TypeName>): seq<TypeName> {
    if types == [] then [] else Reversed(types[1..]) + [types[0]]
  }

  /** The entries present in the table, in list order. */
  function PresentEntries(table: Table, types: seq<TypeName>): seq<Fields> {
    if types == [] then []
    else (if types[0] in table then [table[types[0]]] else []) + PresentEntries(table, types[1..])
  }

  /** `Object.assign` of every entry onto the accumulator, left to right. */
  function AssignAll(acc: Fields, entries: seq<Fields>): Fields
    decreases |entries|
  {
    if entries == [] then acc else AssignAll(acc + entries[0], entries[1..])
  }

  lemma {:induction false} PresentEntriesAppend(table: Table, a: seq<TypeName>, b: seq<TypeName>)
    ensures PresentEntries(table, a + b) == PresentEntries(table, a) + PresentEntries(table, b)
  {
    if a == [] {
      assert a + b == b;
    } else {
      assert (a + b)[1..] == a[1..] + b;
      PresentEntriesAppend(table, a[1..], b);
    }
  }

  lemma {:induction false} AssignAllAppend(acc: Fields, a: seq<Fields>, b: seq<Fields>)
    ensures AssignAll(acc, a + b) == AssignAll(AssignAll(acc, a), b)
    decreases |a|
  {
    if a == [] {
      assert a + b == b;
    } else {
      assert (a + b)[1..] == a[1..] + b;
      AssignAllAppend(acc + a[0], a[1..], b);
    }
  }

  /** Assigning the reversed list left to right is the nearest-wins merge. */
  lemma {:induction false} ReversedAssignIsNearestWins(table: Table, types: seq<TypeName>)
    ensures AssignAll(map[], PresentEntries(table, Reversed(types))) == NearestWins(table, types)
  {
    if types != [] {
      var rest := Reversed(types[1..]);
      ReversedAssignIsNearestWins(table, types[1..]);
      PresentEntriesAppend(table, rest, [types[0]]);
      AssignAllAppend(map[], PresentEntries(table, rest), PresentEntries(table, [types[0]]));
      assert PresentEntries(table, []) == [];
    }
  }

  lemma {:induction false} SomePresent(table: Table, types: seq<TypeName>)
    ensures PresentEntries(table, Reversed(types)) == [] <==> forall t :: t in types ==> t !in table
  {
    if types != [] {
      PresentEntriesAppend(table, Reversed(types[1..]), [types[0]]);
      SomePresent(table, types[1..]);
      assert PresentEntries(table, []) == [];
      assert types == [types[0]] + types[1..];
    }
  }

  /** The lookup over a list of parent types whose first occurrences are the chain. */
  lemma LookupIsEffective(h: Hierarchy, rank: Rank, table: Table, t: TypeName, parents: seq<TypeName>)
    requires Acyclic(h, rank) && Linear(h, rank, t)
    requires FirstOccurrences(parents) == Chain(h, rank, t)
    ensures var entries := PresentEntries(table, Reversed([t] + parents));
            Effective(h, rank, table, t) == if entries == [] then None else Some(AssignAll(map[], entries))
  {
    ReversedAssignIsNearestWins(table, [t] + parents);
    SomePresent(table, [t] + parents);
    NearestWinsIgnoresRepetitions(table, parents);
    assert ([t] + parents)[1..] == parents;
    assert ([t] + Chain(h, rank, t))[1..] == Chain(h, rank, t);
    forall a
      ensures a in [t] + parents <==> a in [t] + Chain(h, rank, t)
    {
      SameElements(parents, a);
    }
  }

  /** The lookup of a type in any hierarchy: nearest wins along the list of its parents. */
  ghost function Lookup(h: Hierarchy, rank: Rank, table: Table, t: TypeName): Option<Fields>
    requires Acyclic(h, rank)
  {
    var types := [t] + AllParents(h, rank, t);
    if exists a :: a in types && a in table then Some(NearestWins(table, types)) else None
  }

  lemma LookupComputed(h: Hierarchy, rank: Rank, table: Table, t: TypeName)
    requires Acyclic(h, rank)
    ensures var entries := PresentEntries(table, Reversed([t] + AllParents(h, rank, t)));
            Lookup(h, rank, table, t) == if entries == [] then None else Some(AssignAll(map[], entries))
  {
    ReversedAssignIsNearestWins(table, [t] + AllParents(h, rank, t));
    SomePresent(table, [t] + AllParents(h, rank, t));
  }

  /** What every lookup owes its callers in any hierarchy: an answer exactly if the type or
      an ancestor has an entry, a field exactly if one of them defines it, with a value one
      of them gives it, and with the type's own value if it has one. */
  ghost predicate Answers(h: Hierarchy, raw: Table, t: TypeName, r: Option<Fields>) {
    && (r.Some? <==> exists a :: Reaches(h, t, a) && a in raw)
    && (forall k :: k in r.GetOr(map[]) <==> exists a :: Reaches(h, t, a) && k in EntryOf(raw, a))
    && Drawn(h, raw, t, r.GetOr(map[]))
    && SubMap(EntryOf(raw, t), r.GetOr(map[]))
  }

  lemma {:induction false} MergeIsDrawn(h: Hierarchy, raw: Table, table: Table, t: TypeName, types: seq<TypeName>)
    requires Faithful(h, raw, table)
    requires forall a :: a in types ==> Reaches(h, t, a)
    ensures Drawn(h, raw, t, NearestWins(table, types))
    ensures forall a, k :: a in types && k in EntryOf(raw, a) ==> k in NearestWins(table, types)
  {
    if types != [] {
      assert forall a :: a in types[1..] ==> a in types;
      MergeIsDrawn(h, raw, table, t, types[1..]);
      if types[0] in raw {
        DrawnFromAncestor(h, raw, t, types[0], table[types[0]]);
      }
      DrawnUnion(h, raw, t, NearestWins(table, types[1..]), EntryOf(table, types[0]));
      assert types == [types[0]] + types[1..];
    }
  }

  lemma LookupAnswers(h: Hierarchy, rank: Rank, raw: Table, table: Table, t: TypeName)
    requires Acyclic(h, rank) && Faithful(h, raw, table)
    ensures Answers(h, raw, t, Lookup(h, rank, table, t))
  {
    var types := [t] + AllParents(h, rank, t);
    var r := Lookup(h, rank, table, t);
    ParentListIsAncestors(h, rank, Width(h), t);
    assert forall a :: a in types <==> Reaches(h, t, a);
    assert forall a :: a in table <==> a in raw;
    MergeIsDrawn(h, raw, table, t, types);
    assert types[0] == t && types[1..] == AllParents(h, rank, t);
    assert SubMap(EntryOf(raw, t), NearestWins(table, types));
    forall a, k | Reaches(h, t, a) && k in EntryOf(raw, a)
      ensures k in r.GetOr(map[])
    {
      assert a in types && a in table;
    }
  }

  // ---- Applying an overwrite to stored data ----

  function FieldOf(data: Fields, key: string): Value {
    if key in data then data[key] else Undefined
  }

  predicate IsEmpty(v: Value) {
    v.Null? || v.Undefined? || v == Text("")
  }

  /** Some overwrite field holds a non-empty stored value that differs from the overwrite. */
  predicate Customized(overwrites: Fields, data: Fields) {
    exists key :: key in overwrites && !IsEmpty(FieldOf(data, key)) && FieldOf(data, key) != overwrites[key]
  }

  /** `data` after applying the overwrites of a type that is on the skip list or not. */
  ghost function Applied(skipped: bool, overwrites: Option<Fields>, data: Fields): Fields {
    if overwrites.None? || (skipped && Customized(overwrites.value, data)) then data
    else data + map key | key in overwrites.value && IsEmpty(FieldOf(data, key)) :: overwrites.value[key]
  }

  /** The values an overwrite fills in for. */
  const EMPTY_VALUES: set<Value> := {Undefined, Null, Text("")}

  /** Field by field: an overwrite replaces a missing, null or blank value, unless the type is
      skip-listed and some other value differs from its overwrite; nothing else changes. */
  ghost predicate FilledIn(skipListed: bool, overwrites: Option<Fields>, data: Fields, r: Fields) {
    var given := overwrites.GetOr(map[]);
    var customised := exists k :: k in given && k in data && data[k] !in EMPTY_VALUES && data[k] != given[k];
    forall k ::
      if k in given && (k !in data || data[k] in EMPTY_VALUES) && !(skipListed && customised)
      then k in r && r[k] == given[k]
      else (k in r <==> k in data) && (k in data && k in r ==> r[k] == data[k])
  }

  lemma AppliedFillsIn(skipListed: bool, overwrites: Option<Fields>, data: Fields)
    ensures FilledIn(skipListed, overwrites, data, Applied(skipListed, overwrites, data))
  {
    assert forall v :: IsEmpty(v) <==> v in EMPTY_VALUES;
    if overwrites.Some? {
      assert Customized(overwrites.value, data) <==>
             exists k :: k in overwrites.value && k in data && data[k] !in EMPTY_VALUES && data[k] != overwrites.value[k];
    }
  }

  /** Applying the overwrites would change some field they name. */
  ghost predicate Managed(skipped: bool, overwrites: Option<Fields>, data: Fields) {
    && overwrites.Some?
    && exists key ::
      key in overwrites.value && FieldOf(Applied(skipped, overwrites, data), key) != FieldOf(data, key)
  }

  lemma ApplyIdempotent(skipped: bool, overwrites: Option<Fields>, data: Fields)
    ensures Applied(skipped, overwrites, Applied(skipped, overwrites, data)) == Applied(skipped, overwrites, data)
  {
  }

  lemma ApplyKeepsStoredValues(skipped: bool, overwrites: Option<Fields>, data: Fields, key: string)
    requires !IsEmpty(FieldOf(data, key))
    ensures FieldOf(Applied(skipped, overwrites, data), key) == FieldOf(data, key)
  {
  }

  /** On a skip-listed type an overwrite is applied as a whole or not at all, and
      which of the two is decided by whether the credential was customised. */
  lemma ApplyAllOrNothing(overwrites: Fields, data: Fields)
    ensures Customized(overwrites, data) ==> Applied(true, Some(overwrites), data) == data
    ensures !Customized(overwrites, data) <==>
            forall key :: key in overwrites ==> FieldOf(Applied(true, Some(overwrites), data), key) == overwrites[key]
  {
  }

  lemma ManagedExactlyWhenSomethingIsInjected(skipped: bool, overwrites: Fields, data: Fields)
    ensures Managed(skipped, Some(overwrites), data) <==>
            && !(skipped && Customized(overwrites, data))
            && exists key :: key in overwrites && IsEmpty(FieldOf(data, key)) && overwrites[key] != FieldOf(data, key)
  {
  }

  /** Applying changes no other fields than those it is asked about. */
  lemma ManagedExactlyWhenSomethingChanges(skipped: bool, overwrites: Option<Fields>, data: Fields)
    ensures Managed(skipped, overwrites, data) <==>
            exists key :: FieldOf(Applied(skipped, overwrites, data), key) != FieldOf(data, key)
  {
  }

  /** Once an overwrite has been applied the credential no longer counts as managed. */
  lemma NotManagedAfterApplying(skipped: bool, overwrites: Option<Fields>, data: Fields)
    ensures !Managed(skipped, overwrites, Applied(skipped, overwrites, data))
  {
  }
}
