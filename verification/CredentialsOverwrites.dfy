/** The overwrite service: a table rewritten in place with the help of a memo
    whose contents depend on the order in which types are visited. */
module CredentialsOverwrites {
  import opened Wrappers
  import opened TypeHierarchy
  import opened CredentialTypes
  import opened OverwriteMerge
  import opened OverwriteForks
  import opened OverwriteRewrite

  class CredentialsOverwrites {
    const hierarchy: Hierarchy
    const skipTypes: set<TypeName>
    const persistence: bool
    ghost const rank: Rank

    var overwriteData: Table
    var resolvedTypes: seq<TypeName>
    /** What was last persisted, if anything. */
    var savedData: Option<Table>
    /** The table as it was handed to `SetPlainData`. */
    ghost var raw: Table

    ghost predicate Valid()
      reads this`raw, this`overwriteData
    {
      Acyclic(hierarchy, rank) && TableInv(hierarchy, rank, raw, overwriteData)
    }

    /** The answer every lookup of `type` owes its callers. */
    ghost function Answer(typeName: TypeName): Option<Fields>
      requires Valid() && Linear(hierarchy, rank, typeName)
      reads this
    {
      Effective(hierarchy, rank, raw, typeName)
    }

    /** What the lookup finds in the table as it is now. */
    ghost function Found(typeName: TypeName): Option<Fields>
      requires Valid()
      reads this
    {
      Lookup(hierarchy, rank, overwriteData, typeName)
    }

    constructor (h: Hierarchy, ghost rank: Rank, skipTypes: set<TypeName>, persistence: bool)
      requires Acyclic(h, rank)
      ensures Valid() && raw == map[] && savedData == None
      ensures this.hierarchy == h && this.rank == rank && this.skipTypes == skipTypes
      ensures this.persistence == persistence
    {
      this.hierarchy, this.rank, this.skipTypes, this.persistence := h, rank, skipTypes, persistence;
      overwriteData, resolvedTypes, savedData, raw := map[], [], None, map[];
    }

    /** Replaces the table and rewrites every entry with its overwrites, visiting the
        keys in any order. Every later lookup answers from the raw table's true merge, and
        the entries have what their parents define. */
    method SetPlainData(data: Table)
      requires Valid()
      modifies this
      ensures Valid() && raw == data && Rewritten(hierarchy, rank, raw, overwriteData)
      ensures savedData == old(savedData)
    {
      resolvedTypes := [];
      overwriteData := data;
      raw := data;
      RawTableHolds(hierarchy, rank, raw);
      RewritingStarts(hierarchy, rank, raw);
      var remaining := data.Keys;
      while remaining != {}
        invariant Rewriting(hierarchy, rank, raw, overwriteData, resolvedTypes, remaining)
        invariant Valid() && raw == data && remaining <= data.Keys && savedData == old(savedData)
        decreases remaining
      {
        var typeName :| typeName in remaining;
        ghost var table, resolved := overwriteData, resolvedTypes;
        var overwrites := GetOverwrites(typeName);
        ResolveReturns(hierarchy, rank, raw, table, resolved, typeName);
        StoringKeepsTable(hierarchy, rank, raw, table, resolved, typeName, overwrites, resolvedTypes);
        if overwrites.Some? && |overwrites.value| > 0 {
          overwriteData := overwriteData[typeName := overwrites.value];
        }
        StoringIsVisit(
          hierarchy, rank, raw, table, resolved, typeName, overwrites, resolvedTypes, overwriteData);
        VisitKeepsRewriting(
          hierarchy, rank, raw, table, resolved, remaining, typeName, overwriteData, resolvedTypes);
        remaining := remaining - {typeName};
      }
      RewritingEnds(hierarchy, rank, raw, overwriteData, resolvedTypes);
    }

    /** `SetData`: the value persisted is the table as `SetPlainData` left it. */
    method SetData(data: Table, storeInDb: bool)
      requires Valid()
      modifies this
      ensures Valid() && raw == data
      ensures storeInDb && persistence ==> savedData.Some? && Rewritten(hierarchy, rank, data, savedData.value)
      ensures savedData == if storeInDb && persistence then Some(overwriteData) else old(savedData)
    {
      SetPlainData(data);
      if storeInDb && persistence {
        savedData := Some(overwriteData);
      }
    }

    /** Returns the overwrites of a type merged with whatever its parents return,
        which may be raw, partly merged or fully merged. It only fills the memo. */
    method GetOverwrites(typeName: TypeName) returns (r: Option<Fields>)
      requires Acyclic(hierarchy, rank)
      modifies this`resolvedTypes
      ensures (r, resolvedTypes) == Resolve(hierarchy, rank, overwriteData, old(resolvedTypes), typeName)
      decreases RankOf(rank, typeName)
    {
      if typeName in resolvedTypes {
        return TableEntry(overwriteData, typeName);
      }
      if typeName !in hierarchy {
        return None;
      }
      if hierarchy[typeName].None? {
        resolvedTypes := resolvedTypes + [typeName];
        return TableEntry(overwriteData, typeName);
      }
      var parents := hierarchy[typeName].value;
      var overwrites: Fields := map[];
      for i := 0 to |parents|
        invariant (overwrites, resolvedTypes) == Inherit(hierarchy, rank, overwriteData, old(resolvedTypes), typeName, i)
      {
        assert parents[i] in ParentsOf(hierarchy, typeName);
        var inherited := GetOverwrites(parents[i]);
        overwrites := overwrites + inherited.GetOr(map[]);
      }
      NothingMore(overwrites);
      if typeName in overwriteData {
        overwrites := overwrites + overwriteData[typeName];
      }
      resolvedTypes := resolvedTypes + [typeName];
      return Some(overwrites);
    }

    /** The effective lookup: on a linear chain it is the nearest-type-wins merge of the raw
        table, whatever the memo and the rewritten table hold. In any hierarchy it has the
        fields the type and its ancestors define, with values that they give them. */
    method Get(name: TypeName) returns (r: Option<Fields>)
      requires Valid()
      ensures r == Found(name)
      ensures Answers(hierarchy, raw, name, r)
      ensures Linear(hierarchy, rank, name) ==> r == Answer(name)
      ensures forall p, q :: Fork(hierarchy, rank, name, p, q) && ParentsAgree(hierarchy, rank, raw, name, p, q) ==>
                r == Lookup(hierarchy, rank, raw, name)
    {
      var parentTypes := GetParentTypes(hierarchy, name, rank);
      var entries := PresentEntries(overwriteData, Reversed([name] + parentTypes));
      LookupComputed(hierarchy, rank, overwriteData, name);
      LookupAnswers(hierarchy, rank, raw, overwriteData, name);
      forall p, q | Fork(hierarchy, rank, name, p, q) && ParentsAgree(hierarchy, rank, raw, name, p, q)
        ensures Found(name) == Lookup(hierarchy, rank, raw, name)
      {
        AgreeingParentsAnswerAlike(hierarchy, rank, raw, overwriteData, name, p, q);
      }
      if Linear(hierarchy, rank, name) {
        LookupIsEffective(hierarchy, rank, overwriteData, name, parentTypes);
        SoundTableAnswersAlike(hierarchy, rank, raw, overwriteData, name);
      }
      if |entries| == 0 {
        return None;
      }
      return Some(AssignAll(map[], entries));
    }

    method SupportsManagedAuth(typeName: TypeName) returns (r: bool)
      requires Valid()
      ensures r <==> exists a :: Reaches(hierarchy, typeName, a) && a in raw
    {
      var overwrites := Get(typeName);
      return overwrites.Some?;
    }

    /** Fills the empty fields of a copy of `data`; a customised credential of a
        skip-listed type is returned as it is. */
    method ApplyOverwrite(typeName: TypeName, data: Fields) returns (r: Fields)
      requires Valid()
      ensures r == Applied(typeName in skipTypes, Found(typeName), data)
      ensures FilledIn(typeName in skipTypes, Found(typeName), data, r)
      ensures Answers(hierarchy, raw, typeName, Found(typeName))
      ensures Linear(hierarchy, rank, typeName) ==> Found(typeName) == Answer(typeName)
    {
      var overwrites := Get(typeName);
      AppliedFillsIn(typeName in skipTypes, overwrites, data);
      if overwrites.None? {
        return data;
      }
      if typeName in skipTypes {
        if Customized(overwrites.value, data) {
          return data;
        }
      }
      r := FillEmptyFields(overwrites.value, data);
    }

    method UsesManagedAuth(typeName: TypeName, data: Fields) returns (r: bool)
      requires Valid()
      ensures r == Managed(typeName in skipTypes, Found(typeName), data)
      ensures Answers(hierarchy, raw, typeName, Found(typeName))
      ensures Linear(hierarchy, rank, typeName) ==> Found(typeName) == Answer(typeName)
    {
      var overwrites := Get(typeName);
      if overwrites.None? {
        return false;
      }
      var applied := ApplyOverwrite(typeName, data);
      return exists key :: key in overwrites.value && FieldOf(applied, key) != FieldOf(data, key);
    }
  }

  /** Sets every overwrite field that is currently empty, one key at a time. */
  method FillEmptyFields(overwrites: Fields, data: Fields) returns (r: Fields)
    ensures r == data + map key | key in overwrites && IsEmpty(FieldOf(data, key)) :: overwrites[key]
  {
    r := data;
    var remaining := overwrites.Keys;
    while remaining != {}
      invariant remaining <= overwrites.Keys
      invariant r.Keys == data.Keys + set key | key in overwrites.Keys - remaining && IsEmpty(FieldOf(data, key))
      invariant forall key :: key in r ==>
                  r[key] == if key in overwrites.Keys - remaining && IsEmpty(FieldOf(data, key))
                            then overwrites[key] else data[key]
      decreases remaining
    {
      var key :| key in remaining;
      if IsEmpty(FieldOf(r, key)) {
        r := r[key := overwrites[key]];
      }
      remaining := remaining - {key};
    }
  }

  /** What has been applied is settled: applying again changes nothing, stored values are
      kept, and the result no longer counts as managed, whatever the hierarchy. */
  method ApplyAndCheck(overwrites: CredentialsOverwrites, typeName: TypeName, data: Fields)
    returns (once: Fields, twice: Fields, managedBefore: bool, managedAfter: bool)
    requires overwrites.Valid()
    ensures twice == once && !managedAfter
    ensures forall key :: !IsEmpty(FieldOf(data, key)) ==> FieldOf(once, key) == FieldOf(data, key)
    ensures managedBefore <==> exists key :: FieldOf(once, key) != FieldOf(data, key)
  {
    managedBefore := overwrites.UsesManagedAuth(typeName, data);
    once := overwrites.ApplyOverwrite(typeName, data);
    twice := overwrites.ApplyOverwrite(typeName, once);
    managedAfter := overwrites.UsesManagedAuth(typeName, once);
    WhatApplyingSettles(typeName in overwrites.skipTypes, overwrites.Found(typeName), data);
  }

  lemma WhatApplyingSettles(skipped: bool, overwrites: Option<Fields>, data: Fields)
    ensures var once := Applied(skipped, overwrites, data);
            && Applied(skipped, overwrites, once) == once && !Managed(skipped, overwrites, once)
            && (forall key :: !IsEmpty(FieldOf(data, key)) ==> FieldOf(once, key) == FieldOf(data, key))
            && (Managed(skipped, overwrites, data) <==> exists key :: FieldOf(once, key) != FieldOf(data, key))
  {
    ApplyIdempotent(skipped, overwrites, data);
    NotManagedAfterApplying(skipped, overwrites, data);
    ManagedExactlyWhenSomethingChanges(skipped, overwrites, data);
    forall key | !IsEmpty(FieldOf(data, key))
      ensures FieldOf(Applied(skipped, overwrites, data), key) == FieldOf(data, key)
    {
      ApplyKeepsStoredValues(skipped, overwrites, data, key);
    }
  }

  /** An instance that loads what another one saved answers every lookup like it. */
  method ReloadAgrees(saver: CredentialsOverwrites, loader: CredentialsOverwrites, data: Table, name: TypeName)
    returns (before: Option<Fields>, after: Option<Fields>)
    requires saver != loader && saver.Valid() && loader.Valid() && saver.persistence
    requires saver.hierarchy == loader.hierarchy && saver.rank == loader.rank
    requires Linear(saver.hierarchy, saver.rank, name)
    modifies saver, loader
    ensures before == after == Effective(saver.hierarchy, saver.rank, data, name)
  {
    saver.SetData(data, true);
    loader.SetPlainData(saver.savedData.value);
    before := saver.Get(name);
    after := loader.Get(name);
    ReloadStable(saver.hierarchy, saver.rank, data, saver.overwriteData, loader.overwriteData, name);
    SoundTableAnswersAlike(loader.hierarchy, loader.rank, loader.raw, loader.overwriteData, name);
  }
}
