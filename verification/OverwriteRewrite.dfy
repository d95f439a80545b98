/** What rewriting the overwrite table achieves: which entries end up with the fields of
    their parents, and which as the full merge, whatever the order of the keys. */
module OverwriteRewrite {
  import opened Wrappers
  import opened TypeHierarchy
  import opened CredentialTypes
  import opened OverwriteMerge
  import opened OverwriteForks

  /** All fields that the first `n` parents define themselves, if they are known; the last of
      these gives its values, except for fields that have an own value. */
  ghost predicate HasFieldsOf(h: Hierarchy, raw: Table, t: TypeName, n: nat, own: Fields, entry: Fields)
    requires n <= |ParentsOf(h, t)|
  {
    && (forall i :: 0 <= i < n && ParentsOf(h, t)[i] in h ==> EntryOf(raw, ParentsOf(h, t)[i]).Keys <= entry.Keys)
    && (n > 0 && ParentsOf(h, t)[n - 1] in h ==> GivesValues(EntryOf(raw, ParentsOf(h, t)[n - 1]), own, entry))
  }

  ghost predicate GivesValues(given: Fields, own: Fields, entry: Fields) {
    forall k :: k in given && k !in own && k in entry ==> entry[k] == given[k]
  }

  /** The fields that a type's known direct parents define themselves. */
  ghost predicate HasParentFields(h: Hierarchy, raw: Table, t: TypeName, own: Fields, entry: Fields) {
    HasFieldsOf(h, raw, t, |ParentsOf(h, t)|, own, entry)
  }

  /** No other key of the table inherits from this one. */
  ghost predicate LowestKey(h: Hierarchy, raw: Table, t: TypeName) {
    t in raw && t in h && forall u :: u in raw && Reaches(h, u, t) ==> u == t
  }

  /** All types on the chain are known, and keys outside it share no more of it than types
      that inherit nothing. */
  ghost predicate OwnChain(h: Hierarchy, rank: Rank, raw: Table, t: TypeName)
    requires Acyclic(h, rank) && Linear(h, rank, t)
  {
    && (forall x :: x in [t] + Chain(h, rank, t) ==> x in h)
    && forall u, x :: u in raw && x in [t] + Chain(h, rank, t) && Reaches(h, u, x) ==>
         u in [t] + Chain(h, rank, t) || ParentsOf(h, x) == []
  }

  /** Going up the chain, the first type that the memo knows has its full merge in the table. */
  ghost predicate Ready(h: Hierarchy, rank: Rank, raw: Table, table: Table, resolved: seq<TypeName>, t: TypeName)
    requires Acyclic(h, rank) && Linear(h, rank, t)
    decreases RankOf(rank, t)
  {
    if t in resolved then EntryOf(table, t) == Merged(h, rank, raw, t)
    else t in h && (ParentsOf(h, t) == [] || Ready(h, rank, raw, table, resolved, ParentsOf(h, t)[0]))
  }

  /** With nothing above it, a type's sound entry is its merge. */
  lemma TopEntry(h: Hierarchy, rank: Rank, raw: Table, table: Table, t: TypeName)
    requires Acyclic(h, rank) && Linear(h, rank, t) && ParentsOf(h, t) == [] && Sound(h, rank, raw, table)
    ensures EntryOf(table, t) == Merged(h, rank, raw, t) == EntryOf(raw, t)
  {
    MergedUnfolds(h, rank, raw, t);
    assert t in raw ==> SoundEntry(h, rank, raw, t, table[t]);
  }

  /** A sound entry over the parent's full merge is the full merge. */
  lemma EntryOverMerge(h: Hierarchy, rank: Rank, raw: Table, table: Table, t: TypeName)
    requires Acyclic(h, rank) && Linear(h, rank, t) && ParentsOf(h, t) != [] && Sound(h, rank, raw, table)
    ensures Merged(h, rank, raw, ParentsOf(h, t)[0]) + EntryOf(table, t) == Merged(h, rank, raw, t)
  {
    MergedUnfolds(h, rank, raw, t);
    assert t in raw ==> SoundEntry(h, rank, raw, t, table[t]);
  }

  lemma {:induction false} ChainReachesBack(h: Hierarchy, rank: Rank, t: TypeName, y: TypeName)
    requires Acyclic(h, rank) && Linear(h, rank, t) && y in [t] + Chain(h, rank, t) && Reaches(h, y, t)
    ensures y == t
  {
    if y != t {
      ChainIsAncestors(h, rank, t, y);
      AncestorsCompose(h, t, y, t);
      AncestorRanksLower(h, rank, t, t);
    }
  }

  /** Visiting the key `y` leaves a type ready that was so before, if `y` is still ahead on
      its chain, or reaches nothing of it that inherits anything. */
  lemma {:induction false} ReadyAfterVisit(
    h: Hierarchy, rank: Rank, raw: Table, table: Table, resolved: seq<TypeName>, y: TypeName,
    table': Table, resolved': seq<TypeName>, z: TypeName)
    requires Acyclic(h, rank) && Linear(h, rank, z) && Sound(h, rank, raw, table')
    requires Ready(h, rank, raw, table, resolved, z)
    requires forall x :: x != y ==> EntryOf(table', x) == EntryOf(table, x)
    requires Linear(h, rank, y) && Ready(h, rank, raw, table, resolved, y) ==> EntryOf(table', y) == Merged(h, rank, raw, y)
    requires resolved <= resolved' && forall x :: x in resolved' ==> x in resolved || Reaches(h, y, x)
    requires
      || (y in [z] + Chain(h, rank, z) && y in resolved')
      || (forall x :: x in [z] + Chain(h, rank, z) && Reaches(h, y, x) ==> ParentsOf(h, x) == [])
    ensures Ready(h, rank, raw, table', resolved', z)
    decreases RankOf(rank, z)
  {
    if z in resolved' {
      if z != y && z !in resolved {
        if y in [z] + Chain(h, rank, z) {
          ChainReachesBack(h, rank, z, y);
        }
        assert z in [z] + Chain(h, rank, z);
        TopEntry(h, rank, raw, table', z);
      }
    } else if ParentsOf(h, z) != [] {
      var p := ParentsOf(h, z)[0];
      assert Chain(h, rank, z) == [p] + Chain(h, rank, p);
      ReadyAfterVisit(h, rank, raw, table, resolved, y, table', resolved', p);
    }
  }

  // ---- The recursive merge ----

  /** What a call for `t` returns, and the memo it leaves: a type that the memo knows or that
      inherits nothing gives its own entry, any other is merged over its parents' results. */
  ghost function Resolve(h: Hierarchy, rank: Rank, table: Table, resolved: seq<TypeName>, t: TypeName)
    : (Option<Fields>, seq<TypeName>)
    requires Acyclic(h, rank)
    decreases RankOf(rank, t), |ParentsOf(h, t)| + 1
  {
    if t in resolved then (TableEntry(table, t), resolved)
    else if t !in h then (None, resolved)
    else if h[t].None? then (TableEntry(table, t), resolved + [t])
    else
      var (overwrites, now) := Inherit(h, rank, table, resolved, t, |ParentsOf(h, t)|);
      (Some(overwrites + EntryOf(table, t)), now + [t])
  }

  /** What the first `i` parents give, a later one over the earlier ones. */
  ghost function Inherit(h: Hierarchy, rank: Rank, table: Table, resolved: seq<TypeName>, t: TypeName, i: nat)
    : (Fields, seq<TypeName>)
    requires Acyclic(h, rank) && i <= |ParentsOf(h, t)|
    decreases RankOf(rank, t), i
  {
    if i == 0 then (map[], resolved)
    else
      var (overwrites, now) := Inherit(h, rank, table, resolved, t, i - 1);
      assert ParentsOf(h, t)[i - 1] in ParentsOf(h, t);
      var (inherited, after) := Resolve(h, rank, table, now, ParentsOf(h, t)[i - 1]);
      (overwrites + inherited.GetOr(map[]), after)
  }

  function TableEntry(table: Table, t: TypeName): Option<Fields> {
    if t in table then Some(table[t]) else None
  }

  /** A call for `t` adds to the memo nothing but `t` and its ancestors. */
  ghost predicate MemoGrown(h: Hierarchy, t: TypeName, resolved: seq<TypeName>, resolved': seq<TypeName>) {
    resolved <= resolved' && forall x :: x in resolved' ==> x in resolved || Reaches(h, t, x)
  }

  /** What a call for `t` returns and leaves in the memo. For a known type it is at least the
      type's raw entry and, if the memo did not know it, the raw fields of known parents; it
      only draws on ancestors; on a chain it is at most the merge, and all of it if ready. */
  ghost predicate Returned(
    h: Hierarchy, rank: Rank, raw: Table, table: Table, resolved: seq<TypeName>, t: TypeName,
    r: Option<Fields>, resolved': seq<TypeName>)
    requires Acyclic(h, rank)
  {
    && MemoGrown(h, t, resolved, resolved') && (t in h ==> t in resolved')
    && (t in resolved ==> r.GetOr(map[]) == EntryOf(table, t))
    && (t in h && t !in resolved && |ParentsOf(h, t)| == 1 ==>
          var p := ParentsOf(h, t)[0];
          && (p in h ==> p in resolved')
          && (p in resolved ==> r.GetOr(map[]) == EntryOf(table, p) + EntryOf(table, t)))
    && (r.Some? ==> t in h || t in resolved)
    && (r.None? && t in h ==> t !in table)
    && (t in h && t !in resolved ==> HasParentFields(h, raw, t, EntryOf(table, t), r.GetOr(map[])))
    && (r.Some? ==>
          SubMap(EntryOf(raw, t), r.value) && Drawn(h, raw, t, r.value) && ForksEntry(h, rank, raw, t, r.value))
    && (Linear(h, rank, t) ==>
          && SubMap(r.GetOr(map[]), Merged(h, rank, raw, t))
          && (Ready(h, rank, raw, table, resolved, t) ==> r.GetOr(map[]) == Merged(h, rank, raw, t)))
  }

  /** The table's own entry, if the memo knows the type or nothing is above it. */
  lemma TableEntryReturned(
    h: Hierarchy, rank: Rank, raw: Table, table: Table, resolved: seq<TypeName>, t: TypeName, resolved': seq<TypeName>)
    requires Acyclic(h, rank) && TableInv(h, rank, raw, table)
    requires (t in resolved && resolved' == resolved) || (t in h && h[t].None? && resolved' == resolved + [t])
    ensures Returned(h, rank, raw, table, resolved, t, TableEntry(table, t), resolved')
  {
    assert t in table ==> ForksEntry(h, rank, raw, t, table[t]);
    if Linear(h, rank, t) {
      assert t in raw ==> SoundEntry(h, rank, raw, t, table[t]);
      if t !in resolved {
        TopEntry(h, rank, raw, table, t);
      }
    }
  }

  /** What has been collected from the first `i` parents. */
  ghost predicate Inheriting(
    h: Hierarchy, rank: Rank, raw: Table, table: Table, resolved: seq<TypeName>, t: TypeName, i: nat,
    overwrites: Fields, now: seq<TypeName>)
    requires Acyclic(h, rank)
  {
    && t !in resolved && i <= |ParentsOf(h, t)|
    && MemoGrown(h, t, resolved, now)
    && Drawn(h, raw, t, overwrites) && ForksInherit(h, rank, raw, t, overwrites)
    && HasFieldsOf(h, raw, t, i, map[], overwrites)
    && (i == 0 ==> overwrites == map[] && now == resolved)
    && (i == 1 ==>
          var p := ParentsOf(h, t)[0];
          (p in h ==> p in now) && (p in resolved ==> overwrites == EntryOf(table, p)))
    && (i > 0 && Linear(h, rank, t) ==>
          var p := ParentsOf(h, t)[0];
          && SubMap(overwrites, Merged(h, rank, raw, p))
          && (Ready(h, rank, raw, table, resolved, t) ==> overwrites == Merged(h, rank, raw, p)))
  }

  lemma InheritedFields(
    h: Hierarchy, rank: Rank, raw: Table, table: Table, resolved: seq<TypeName>, t: TypeName, i: nat,
    overwrites: Fields, now: seq<TypeName>, inherited: Option<Fields>, after: seq<TypeName>)
    requires Acyclic(h, rank) && TableInv(h, rank, raw, table)
    requires Inheriting(h, rank, raw, table, resolved, t, i, overwrites, now) && i < |ParentsOf(h, t)|
    requires Returned(h, rank, raw, table, now, ParentsOf(h, t)[i], inherited, after)
    ensures HasFieldsOf(h, raw, t, i + 1, map[], overwrites + inherited.GetOr(map[]))
  {
    var parent := ParentsOf(h, t)[i];
    assert parent in h ==> SubMap(EntryOf(raw, parent), inherited.GetOr(map[]));
  }

  lemma MemoGrows(h: Hierarchy, t: TypeName, parent: TypeName, resolved: seq<TypeName>, now: seq<TypeName>, after: seq<TypeName>)
    requires parent in ParentsOf(h, t) && MemoGrown(h, t, resolved, now) && MemoGrown(h, parent, now, after)
    ensures MemoGrown(h, t, resolved, after)
  {
    ParentIsAncestor(h, t, parent);
    forall x | x in after && x !in now
      ensures Reaches(h, t, x)
    {
      ReachesComposes(h, t, parent, x);
    }
  }

  lemma MemoTakes(h: Hierarchy, t: TypeName, resolved: seq<TypeName>, now: seq<TypeName>)
    requires MemoGrown(h, t, resolved, now)
    ensures MemoGrown(h, t, resolved, now + [t]) && t in now + [t] && forall p :: p in now ==> p in now + [t]
  {
  }

  lemma NothingMore(a: Fields)
    ensures a + map[] == a && map[] + a == a
  {
  }

  lemma NothingInherited(h: Hierarchy, rank: Rank, raw: Table, table: Table, resolved: seq<TypeName>, t: TypeName)
    requires Acyclic(h, rank) && t !in resolved
    ensures Inheriting(h, rank, raw, table, resolved, t, 0, map[], resolved)
  {
  }

  lemma UnknownReturned(h: Hierarchy, rank: Rank, raw: Table, table: Table, resolved: seq<TypeName>, t: TypeName)
    requires Acyclic(h, rank) && t !in resolved && t !in h
    ensures Returned(h, rank, raw, table, resolved, t, None, resolved)
  {
  }

  /** One more parent's result is merged in. */
  lemma InheritFromParent(
    h: Hierarchy, rank: Rank, raw: Table, table: Table, resolved: seq<TypeName>, t: TypeName, i: nat,
    overwrites: Fields, now: seq<TypeName>, inherited: Option<Fields>, after: seq<TypeName>)
    requires Acyclic(h, rank) && TableInv(h, rank, raw, table)
    requires Inheriting(h, rank, raw, table, resolved, t, i, overwrites, now) && i < |ParentsOf(h, t)|
    requires Returned(h, rank, raw, table, now, ParentsOf(h, t)[i], inherited, after)
    ensures Inheriting(h, rank, raw, table, resolved, t, i + 1, overwrites + inherited.GetOr(map[]), after)
  {
    var parent, more := ParentsOf(h, t)[i], inherited.GetOr(map[]);
    InheritedFields(h, rank, raw, table, resolved, t, i, overwrites, now, inherited, after);
    MemoGrows(h, t, parent, resolved, now, after);
    MoreInherited(h, rank, raw, t, parent, overwrites, more);
    ParentIsAncestor(h, t, parent);
    DrawnFromAncestor(h, raw, t, parent, more);
    DrawnUnion(h, raw, t, overwrites, more);
    NothingMore(more);
  }

  lemma EntryIsSound(h: Hierarchy, rank: Rank, raw: Table, table: Table, t: TypeName)
    requires Acyclic(h, rank) && TableInv(h, rank, raw, table)
    ensures SubMap(EntryOf(raw, t), EntryOf(table, t)) && Drawn(h, raw, t, EntryOf(table, t))
    ensures ForksEntry(h, rank, raw, t, EntryOf(table, t))
    ensures Linear(h, rank, t) ==> SoundEntry(h, rank, raw, t, EntryOf(table, t))
  {
    assert t in table ==> ForksEntry(h, rank, raw, t, table[t]);
  }

  lemma OwnEntryOnChain(
    h: Hierarchy, rank: Rank, raw: Table, table: Table, resolved: seq<TypeName>, t: TypeName,
    overwrites: Fields, now: seq<TypeName>)
    requires Acyclic(h, rank) && TableInv(h, rank, raw, table) && t in h && Linear(h, rank, t)
    requires Inheriting(h, rank, raw, table, resolved, t, |ParentsOf(h, t)|, overwrites, now)
    ensures SubMap(overwrites + EntryOf(table, t), Merged(h, rank, raw, t))
    ensures Ready(h, rank, raw, table, resolved, t) ==> overwrites + EntryOf(table, t) == Merged(h, rank, raw, t)
  {
    EntryIsSound(h, rank, raw, table, t);
    MergeOverParentIsSound(h, rank, raw, t, overwrites, EntryOf(table, t));
    if ParentsOf(h, t) == [] {
      TopEntry(h, rank, raw, table, t);
      NothingMore(EntryOf(table, t));
    } else {
      EntryOverMerge(h, rank, raw, table, t);
    }
  }

  lemma OwnFieldsOnTop(h: Hierarchy, raw: Table, t: TypeName, n: nat, overwrites: Fields, own: Fields)
    requires n <= |ParentsOf(h, t)| && HasFieldsOf(h, raw, t, n, map[], overwrites)
    ensures HasFieldsOf(h, raw, t, n, own, overwrites + own)
  {
  }

  lemma OwnEntryOverParents(
    h: Hierarchy, rank: Rank, raw: Table, table: Table, resolved: seq<TypeName>, t: TypeName,
    overwrites: Fields, now: seq<TypeName>)
    requires Acyclic(h, rank) && Inheriting(h, rank, raw, table, resolved, t, |ParentsOf(h, t)|, overwrites, now)
    ensures HasParentFields(h, raw, t, EntryOf(table, t), overwrites + EntryOf(table, t))
  {
    OwnFieldsOnTop(h, raw, t, |ParentsOf(h, t)|, overwrites, EntryOf(table, t));
  }

  lemma OwnEntryElsewhere(
    h: Hierarchy, rank: Rank, raw: Table, table: Table, t: TypeName, overwrites: Fields)
    requires Acyclic(h, rank) && TableInv(h, rank, raw, table)
    requires Drawn(h, raw, t, overwrites) && ForksInherit(h, rank, raw, t, overwrites)
    ensures var all := overwrites + EntryOf(table, t);
            SubMap(EntryOf(raw, t), all) && Drawn(h, raw, t, all) && ForksEntry(h, rank, raw, t, all)
  {
    EntryIsSound(h, rank, raw, table, t);
    DrawnUnion(h, raw, t, overwrites, EntryOf(table, t));
    EntryOverInherited(h, rank, raw, t, overwrites, EntryOf(table, t));
  }

  /** The type's own entry goes on top of what its parents gave. */
  lemma OwnEntryOnTop(
    h: Hierarchy, rank: Rank, raw: Table, table: Table, resolved: seq<TypeName>, t: TypeName,
    overwrites: Fields, now: seq<TypeName>)
    requires Acyclic(h, rank) && TableInv(h, rank, raw, table) && t in h
    requires Inheriting(h, rank, raw, table, resolved, t, |ParentsOf(h, t)|, overwrites, now)
    ensures Returned(h, rank, raw, table, resolved, t, Some(overwrites + EntryOf(table, t)), now + [t])
  {
    OwnEntryElsewhere(h, rank, raw, table, t, overwrites);
    OwnEntryOverParents(h, rank, raw, table, resolved, t, overwrites, now);
    MemoTakes(h, t, resolved, now);
    if Linear(h, rank, t) {
      OwnEntryOnChain(h, rank, raw, table, resolved, t, overwrites, now);
    }
  }

  /** Every call returns what its contract says. */
  lemma {:induction false} ResolveReturns(
    h: Hierarchy, rank: Rank, raw: Table, table: Table, resolved: seq<TypeName>, t: TypeName)
    requires Acyclic(h, rank) && TableInv(h, rank, raw, table)
    ensures var (r, resolved') := Resolve(h, rank, table, resolved, t);
            Returned(h, rank, raw, table, resolved, t, r, resolved')
    decreases RankOf(rank, t), |ParentsOf(h, t)| + 1
  {
    if t in resolved {
      TableEntryReturned(h, rank, raw, table, resolved, t, resolved);
    } else if t !in h {
      UnknownReturned(h, rank, raw, table, resolved, t);
    } else if h[t].None? {
      TableEntryReturned(h, rank, raw, table, resolved, t, resolved + [t]);
    } else {
      var (overwrites, now) := Inherit(h, rank, table, resolved, t, |ParentsOf(h, t)|);
      InheritInherits(h, rank, raw, table, resolved, t, |ParentsOf(h, t)|);
      OwnEntryOnTop(h, rank, raw, table, resolved, t, overwrites, now);
    }
  }

  lemma {:induction false} InheritInherits(
    h: Hierarchy, rank: Rank, raw: Table, table: Table, resolved: seq<TypeName>, t: TypeName, i: nat)
    requires Acyclic(h, rank) && TableInv(h, rank, raw, table) && t !in resolved && i <= |ParentsOf(h, t)|
    ensures var (overwrites, now) := Inherit(h, rank, table, resolved, t, i);
            Inheriting(h, rank, raw, table, resolved, t, i, overwrites, now)
    decreases RankOf(rank, t), i
  {
    if i == 0 {
      NothingInherited(h, rank, raw, table, resolved, t);
    } else {
      var (overwrites, now) := Inherit(h, rank, table, resolved, t, i - 1);
      assert ParentsOf(h, t)[i - 1] in ParentsOf(h, t);
      var (inherited, after) := Resolve(h, rank, table, now, ParentsOf(h, t)[i - 1]);
      InheritInherits(h, rank, raw, table, resolved, t, i - 1);
      ResolveReturns(h, rank, raw, table, now, ParentsOf(h, t)[i - 1]);
      InheritFromParent(h, rank, raw, table, resolved, t, i - 1, overwrites, now, inherited, after);
    }
  }

  // ---- Visiting all keys ----

  /** What holds after some keys have been visited. */
  ghost predicate Rewriting(
    h: Hierarchy, rank: Rank, raw: Table, table: Table, resolved: seq<TypeName>, remaining: set<TypeName>)
    requires Acyclic(h, rank)
  {
    && Sound(h, rank, raw, table)
    && (forall x :: x in resolved ==> exists u :: u in raw && u !in remaining && Reaches(h, u, x))
    && (forall t :: t in remaining && t in raw ==> table[t] == raw[t])
    && (forall t :: LowestKey(h, raw, t) && t !in remaining && t in table ==>
          HasParentFields(h, raw, t, raw[t], table[t]))
    && (forall t :: t in raw && Linear(h, rank, t) && OwnChain(h, rank, raw, t) ==>
          if t in remaining then Ready(h, rank, raw, table, resolved, t)
          else EntryOf(table, t) == Merged(h, rank, raw, t))
  }

  lemma {:induction false} ReadyAtFirst(h: Hierarchy, rank: Rank, raw: Table, t: TypeName)
    requires Acyclic(h, rank) && Linear(h, rank, t) && forall x :: x in [t] + Chain(h, rank, t) ==> x in h
    ensures Ready(h, rank, raw, raw, [], t)
    decreases RankOf(rank, t)
  {
    assert t in [t] + Chain(h, rank, t);
    if ParentsOf(h, t) != [] {
      var p := ParentsOf(h, t)[0];
      assert Chain(h, rank, t) == [p] + Chain(h, rank, p);
      ReadyAtFirst(h, rank, raw, p);
    }
  }

  lemma RewritingStarts(h: Hierarchy, rank: Rank, raw: Table)
    requires Acyclic(h, rank) && Sound(h, rank, raw, raw)
    ensures Rewriting(h, rank, raw, raw, [], raw.Keys)
  {
    forall t | t in raw && Linear(h, rank, t) && OwnChain(h, rank, raw, t)
      ensures Ready(h, rank, raw, raw, [], t)
    {
      ReadyAtFirst(h, rank, raw, t);
    }
  }

  /** What one visit does to table and memo. */
  ghost predicate Visit(
    h: Hierarchy, rank: Rank, raw: Table, table: Table, resolved: seq<TypeName>, y: TypeName,
    table': Table, resolved': seq<TypeName>)
    requires Acyclic(h, rank)
  {
    && (forall x :: x != y ==> EntryOf(table', x) == EntryOf(table, x)) && table'.Keys == table.Keys
    && resolved <= resolved' && (forall x :: x in resolved' ==> x in resolved || Reaches(h, y, x))
    && (y in h ==> y in resolved')
    && (y in h && y !in resolved ==> HasParentFields(h, raw, y, EntryOf(table, y), EntryOf(table', y)))
    && (Linear(h, rank, y) && Ready(h, rank, raw, table, resolved, y) ==> EntryOf(table', y) == Merged(h, rank, raw, y))
  }

  /** The result is stored if it is not empty. */
  function Stored(table: Table, y: TypeName, r: Option<Fields>): Table {
    if r.Some? && |r.value| > 0 then table[y := r.value] else table
  }

  lemma StoringKeepsTable(
    h: Hierarchy, rank: Rank, raw: Table, table: Table, resolved: seq<TypeName>, y: TypeName,
    r: Option<Fields>, resolved': seq<TypeName>)
    requires Acyclic(h, rank) && TableInv(h, rank, raw, table) && y in raw
    requires Returned(h, rank, raw, table, resolved, y, r, resolved')
    ensures TableInv(h, rank, raw, Stored(table, y, r))
  {
    if r.Some? && |r.value| > 0 {
      RewritingKeepsTable(h, rank, raw, table, y, r.value);
    }
  }

  lemma StoredEntries(table: Table, y: TypeName, r: Option<Fields>)
    requires y in table
    ensures Stored(table, y, r).Keys == table.Keys
    ensures forall x :: x != y ==> EntryOf(Stored(table, y, r), x) == EntryOf(table, x)
    ensures EntryOf(Stored(table, y, r), y) == r.GetOr(map[]) || (r.GetOr(map[]) == map[] && Stored(table, y, r) == table)
  {
  }

  lemma NothingStored(
    h: Hierarchy, rank: Rank, raw: Table, table: Table, resolved: seq<TypeName>, y: TypeName,
    r: Option<Fields>, resolved': seq<TypeName>)
    requires Acyclic(h, rank) && Sound(h, rank, raw, table)
    requires Returned(h, rank, raw, table, resolved, y, r, resolved') && r.GetOr(map[]) == map[]
    ensures y in h && y !in resolved ==> HasParentFields(h, raw, y, EntryOf(table, y), EntryOf(table, y))
    ensures Linear(h, rank, y) && Ready(h, rank, raw, table, resolved, y) ==> EntryOf(table, y) == Merged(h, rank, raw, y)
  {
    if Linear(h, rank, y) && Ready(h, rank, raw, table, resolved, y) {
      assert y in raw ==> SoundEntry(h, rank, raw, y, table[y]);
      assert EntryOf(table, y) == map[];
    }
  }

  lemma StoringIsVisit(
    h: Hierarchy, rank: Rank, raw: Table, table: Table, resolved: seq<TypeName>, y: TypeName,
    r: Option<Fields>, resolved': seq<TypeName>, table': Table)
    requires Acyclic(h, rank) && Sound(h, rank, raw, table) && y in raw && table' == Stored(table, y, r)
    requires Returned(h, rank, raw, table, resolved, y, r, resolved')
    ensures Visit(h, rank, raw, table, resolved, y, table', resolved')
  {
    StoredEntries(table, y, r);
    if EntryOf(table', y) != r.GetOr(map[]) {
      NothingStored(h, rank, raw, table, resolved, y, r, resolved');
    }
  }

  lemma VisitKeepsChains(
    h: Hierarchy, rank: Rank, raw: Table, table: Table, resolved: seq<TypeName>, remaining: set<TypeName>, y: TypeName,
    table': Table, resolved': seq<TypeName>, t: TypeName)
    requires Acyclic(h, rank) && Rewriting(h, rank, raw, table, resolved, remaining)
    requires y in remaining && y in raw && Visit(h, rank, raw, table, resolved, y, table', resolved')
    requires Sound(h, rank, raw, table')
    requires t in raw && Linear(h, rank, t) && OwnChain(h, rank, raw, t)
    ensures if t in remaining - {y} then Ready(h, rank, raw, table', resolved', t)
            else EntryOf(table', t) == Merged(h, rank, raw, t)
  {
    if t in remaining && t != y {
      ReadyAfterVisit(h, rank, raw, table, resolved, y, table', resolved', t);
    }
  }

  lemma VisitKeepsLowest(
    h: Hierarchy, rank: Rank, raw: Table, table: Table, resolved: seq<TypeName>, remaining: set<TypeName>, y: TypeName,
    table': Table, resolved': seq<TypeName>, t: TypeName)
    requires Acyclic(h, rank) && Rewriting(h, rank, raw, table, resolved, remaining)
    requires y in remaining && y in raw && Visit(h, rank, raw, table, resolved, y, table', resolved')
    requires LowestKey(h, raw, t) && t !in remaining - {y} && t in table'
    ensures HasParentFields(h, raw, t, raw[t], table'[t])
  {
    if t == y {
      assert y !in resolved;
      assert EntryOf(table, y) == raw[y];
    } else {
      assert EntryOf(table', t) == EntryOf(table, t);
    }
  }

  lemma VisitKeepsMemo(
    h: Hierarchy, rank: Rank, raw: Table, table: Table, resolved: seq<TypeName>, remaining: set<TypeName>, y: TypeName,
    table': Table, resolved': seq<TypeName>)
    requires Acyclic(h, rank) && Rewriting(h, rank, raw, table, resolved, remaining)
    requires y in remaining && y in raw && Visit(h, rank, raw, table, resolved, y, table', resolved')
    ensures forall x :: x in resolved' ==> exists u :: u in raw && u !in remaining - {y} && Reaches(h, u, x)
    ensures forall t :: t in remaining - {y} && t in raw ==> table'[t] == raw[t]
  {
    forall x | x in resolved'
      ensures exists u :: u in raw && u !in remaining - {y} && Reaches(h, u, x)
    {
      if x in resolved {
        var u :| u in raw && u !in remaining && Reaches(h, u, x);
        assert u !in remaining - {y};
      } else {
        assert Reaches(h, y, x) && y !in remaining - {y};
      }
    }
    forall t | t in remaining - {y} && t in raw
      ensures table'[t] == raw[t]
    {
      assert EntryOf(table', t) == EntryOf(table, t);
    }
  }

  lemma VisitKeepsRewriting(
    h: Hierarchy, rank: Rank, raw: Table, table: Table, resolved: seq<TypeName>, remaining: set<TypeName>, y: TypeName,
    table': Table, resolved': seq<TypeName>)
    requires Acyclic(h, rank) && Rewriting(h, rank, raw, table, resolved, remaining)
    requires y in remaining && y in raw && Visit(h, rank, raw, table, resolved, y, table', resolved')
    requires Sound(h, rank, raw, table')
    ensures Rewriting(h, rank, raw, table', resolved', remaining - {y})
  {
    VisitKeepsMemo(h, rank, raw, table, resolved, remaining, y, table', resolved');
    forall t | LowestKey(h, raw, t) && t !in remaining - {y} && t in table'
      ensures HasParentFields(h, raw, t, raw[t], table'[t])
    {
      VisitKeepsLowest(h, rank, raw, table, resolved, remaining, y, table', resolved', t);
    }
    forall t | t in raw && Linear(h, rank, t) && OwnChain(h, rank, raw, t)
      ensures if t in remaining - {y} then Ready(h, rank, raw, table', resolved', t)
              else EntryOf(table', t) == Merged(h, rank, raw, t)
    {
      VisitKeepsChains(h, rank, raw, table, resolved, remaining, y, table', resolved', t);
    }
  }

  /** What a rewritten table guarantees, in whatever order its keys were visited: keys that
      no other key inherits from have all fields of their parents' raw entries, and on a
      chain shared with no other key at most in types without parents, the full merge. */
  ghost predicate Rewritten(h: Hierarchy, rank: Rank, raw: Table, table: Table)
    requires Acyclic(h, rank)
  {
    && table.Keys == raw.Keys
    && (forall t :: LowestKey(h, raw, t) && t in table ==> HasParentFields(h, raw, t, raw[t], table[t]))
    && (forall t :: t in table && Linear(h, rank, t) && OwnChain(h, rank, raw, t) ==> table[t] == Merged(h, rank, raw, t))
  }

  lemma RewritingEnds(h: Hierarchy, rank: Rank, raw: Table, table: Table, resolved: seq<TypeName>)
    requires Acyclic(h, rank) && Rewriting(h, rank, raw, table, resolved, {})
    ensures Rewritten(h, rank, raw, table)
  {
  }

  /** A key that inherits from one type, which inherits nothing: its entry becomes the
      parent's raw fields below its own, whatever other keys there are. */
  lemma SingleParentIsMergedIn(h: Hierarchy, rank: Rank, raw: Table, table: Table, t: TypeName, p: TypeName)
    requires Acyclic(h, rank) && Rewritten(h, rank, raw, table) && LowestKey(h, raw, t)
    requires ParentsOf(h, t) == [p] && p in h && ParentsOf(h, p) == []
    ensures t in table && table[t] == EntryOf(raw, p) + raw[t]
  {
    assert Linear(h, rank, p) && Chain(h, rank, p) == [];
    assert Chain(h, rank, t) == [p];
    assert OwnChain(h, rank, raw, t);
    MergedUnfolds(h, rank, raw, t);
    MergedUnfolds(h, rank, raw, p);
  }

  /** Of two keys that inherit from the same type, which the table has no entry for, the one
      visited later misses what lies above that type: the memo has it by then, and its
      entry, of which there is none, is all that is taken over. */
  lemma LaterSiblingIsIncomplete(
    h: Hierarchy, rank: Rank, raw: Table, t: TypeName, u: TypeName, p: TypeName,
    r: Option<Fields>, r': Option<Fields>, resolved: seq<TypeName>, resolved': seq<TypeName>)
    requires Acyclic(h, rank) && t in raw && u in raw && p !in raw && t in h && u in h && p in h && t != u
    requires ParentsOf(h, t) == [p] && ParentsOf(h, u) == [p] && Linear(h, rank, p)
    requires Returned(h, rank, raw, raw, [], t, r, resolved)
    requires Returned(h, rank, raw, Stored(raw, t, r), resolved, u, r', resolved')
    ensures r'.GetOr(map[]) == raw[u]
    ensures r'.GetOr(map[]) == Merged(h, rank, raw, u) <==> Merged(h, rank, raw, p).Keys <= raw[u].Keys
  {
    SiblingsDoNotReach(h, rank, t, u, p);
    assert u !in resolved && p in resolved;
    SecondVisit(h, rank, raw, Stored(raw, t, r), resolved, u, p, r', resolved', t, r);
    MergedUnfolds(h, rank, raw, u);
    BelowOwnEntry(Merged(h, rank, raw, p), raw[u]);
  }

  lemma SiblingsDoNotReach(h: Hierarchy, rank: Rank, t: TypeName, u: TypeName, p: TypeName)
    requires Acyclic(h, rank) && t != u && ParentsOf(h, t) == [p] && ParentsOf(h, u) == [p]
    ensures !Reaches(h, t, u) && p != t && p != u
  {
    ParentIsAncestor(h, u, p);
    AncestorRanksLower(h, rank, u, p);
    ParentIsAncestor(h, t, p);
    AncestorRanksLower(h, rank, t, p);
    if StrictAncestor(h, t, u) {
      var m := AncestorThroughParent(h, t, u);
      assert m == p;
      AncestorRanksLower(h, rank, p, u);
    }
  }

  lemma SecondVisit(
    h: Hierarchy, rank: Rank, raw: Table, table: Table, resolved: seq<TypeName>, u: TypeName, p: TypeName,
    r': Option<Fields>, resolved': seq<TypeName>, t: TypeName, r: Option<Fields>)
    requires Acyclic(h, rank) && ParentsOf(h, u) == [p] && u in h && u in raw && p !in raw && t in raw && t != u && p != t
    requires table == Stored(raw, t, r) && u !in resolved && p in resolved
    requires Returned(h, rank, raw, table, resolved, u, r', resolved')
    ensures r'.GetOr(map[]) == raw[u]
  {
    StoredEntries(raw, t, r);
    NothingMore(raw[u]);
  }

  lemma BelowOwnEntry(above: Fields, own: Fields)
    ensures own == above + own <==> above.Keys <= own.Keys
  {
    assert (above + own).Keys == above.Keys + own.Keys;
    if above.Keys <= own.Keys {
      assert above + own == own;
    }
  }
}
