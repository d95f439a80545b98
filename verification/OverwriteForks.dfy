/** Types with two parents: where the order in which the rewrite merges parents and the
    order of the lookup part ways. */
module OverwriteForks {
  import opened Wrappers
  import opened TypeHierarchy
  import opened CredentialTypes
  import opened OverwriteMerge

  /** Two parents, with single inheritance from there on. */
  ghost predicate Fork(h: Hierarchy, rank: Rank, t: TypeName, p: TypeName, q: TypeName)
    requires Acyclic(h, rank)
  {
    ParentsOf(h, t) == [p, q] && Linear(h, rank, p) && Linear(h, rank, q)
  }

  // ---- The parent list of a fork ----

  lemma {:induction false} QueueComesFirst(h: Hierarchy, rank: Rank, width: nat, below: nat, queue: seq<TypeName>)
    requires Acyclic(h, rank) && WidthAtMost(h, width)
    requires forall x :: x in queue ==> RankOf(rank, x) < below
    ensures queue <= Worklist(h, rank, width, below, queue)
    decreases TotalCost(width, rank, queue)
  {
    if queue != [] {
      var more := ParentList(h, rank, width, queue[0]);
      AppendedCost(width, rank, queue[0], more);
      TotalCostAppend(width, rank, queue[1..], more);
      QueueComesFirst(h, rank, width, below, queue[1..] + more);
      assert queue == [queue[0]] + queue[1..];
    }
  }

  lemma HeadIsProcessed(
    h: Hierarchy, rank: Rank, width: nat, below: nat, x: TypeName, rest: seq<TypeName>, queue: seq<TypeName>)
    requires Acyclic(h, rank) && WidthAtMost(h, width) && RankOf(rank, x) < below
    requires forall y :: y in rest ==> RankOf(rank, y) < below
    requires queue == rest + ParentList(h, rank, width, x)
    ensures forall y :: y in queue ==> RankOf(rank, y) < below
    ensures Worklist(h, rank, width, below, [x] + rest) == [x] + Worklist(h, rank, width, below, queue)
  {
    assert ([x] + rest)[0] == x && ([x] + rest)[1..] == rest;
  }

  /** Both parents come first, then what each has above it; the rest is repetition. */
  lemma ForkParents(h: Hierarchy, rank: Rank, t: TypeName, p: TypeName, q: TypeName)
    requires Acyclic(h, rank) && ParentsOf(h, t) == [p, q]
    ensures [p, q] + (AllParents(h, rank, p) + AllParents(h, rank, q)) <= AllParents(h, rank, t)
  {
    var width, below := Width(h), RankOf(rank, t);
    var a, b := AllParents(h, rank, p), AllParents(h, rank, q);
    assert p in ParentsOf(h, t) && q in ParentsOf(h, t);
    HeadIsProcessed(h, rank, width, below, p, [q], [q] + a);
    HeadIsProcessed(h, rank, width, below, q, a, a + b);
    QueueComesFirst(h, rank, width, below, a + b);
    ForkParentsRegroup(p, q, a + b, Worklist(h, rank, width, below, a + b));
    assert [p] + [q] == [p, q];
  }

  lemma ForkParentsRegroup(p: TypeName, q: TypeName, queue: seq<TypeName>, all: seq<TypeName>)
    requires queue <= all
    ensures [p, q] + queue <= [p] + ([q] + all)
  {
  }

  // ---- The lookup of a fork ----

  lemma ForkParentsMerge(h: Hierarchy, rank: Rank, table: Table, t: TypeName, p: TypeName, q: TypeName)
    requires Acyclic(h, rank) && ParentsOf(h, t) == [p, q]
    ensures NearestWins(table, AllParents(h, rank, t)) ==
            NearestWins(table, [p, q] + (AllParents(h, rank, p) + AllParents(h, rank, q)))
  {
    var width := Width(h);
    var all, front := AllParents(h, rank, t), [p, q] + (AllParents(h, rank, p) + AllParents(h, rank, q));
    ForkParents(h, rank, t, p, q);
    var rest := all[|front|..];
    assert all == front + rest;
    forall a | a in rest
      ensures a in front
    {
      assert a in all;
      ParentListIsAncestors(h, rank, width, t);
      var m := AncestorThroughParent(h, t, a);
      ParentListIsAncestors(h, rank, width, m);
    }
    RepetitionsAddNothing(front, rest);
    NearestWinsIgnoresRepetitions(table, front);
    NearestWinsIgnoresRepetitions(table, all);
  }

  lemma MergedIsEntryOverParents(h: Hierarchy, rank: Rank, table: Table, t: TypeName)
    requires Acyclic(h, rank) && Linear(h, rank, t)
    ensures Merged(h, rank, table, t) == NearestWins(table, AllParents(h, rank, t)) + EntryOf(table, t)
  {
    ParentListIsAncestors(h, rank, Width(h), t);
    NearestWinsIgnoresRepetitions(table, AllParents(h, rank, t));
    assert ([t] + Chain(h, rank, t))[1..] == Chain(h, rank, t);
  }

  lemma EntriesOnTop(above: Fields, above': Fields, a: Fields, b: Fields)
    ensures (above' + above) + (b + a) == ((above' + b) + (above + a)) + (b + a)
  {
  }

  /** The lookup merges what lies above the parents first, then the second parent's entry,
      then the first's, then the type's own. */
  lemma ForkLookup(h: Hierarchy, rank: Rank, table: Table, t: TypeName, p: TypeName, q: TypeName)
    requires Acyclic(h, rank) && Fork(h, rank, t, p, q)
    ensures NearestWins(table, [t] + AllParents(h, rank, t)) ==
            Layers(Merged(h, rank, table, p), Merged(h, rank, table, q), EntryOf(table, p), EntryOf(table, q))
            + EntryOf(table, t)
  {
    var a, b := AllParents(h, rank, p), AllParents(h, rank, q);
    ForkParentsMerge(h, rank, table, t, p, q);
    NearestWinsAppend(table, [p, q], a + b);
    NearestWinsAppend(table, a, b);
    assert [p, q][1..] == [q];
    SingleMerge(table, q);
    MergedIsEntryOverParents(h, rank, table, p);
    MergedIsEntryOverParents(h, rank, table, q);
    EntriesOnTop(NearestWins(table, a), NearestWins(table, b), EntryOf(table, p), EntryOf(table, q));
    assert ([t] + AllParents(h, rank, t))[1..] == AllParents(h, rank, t);
  }

  /** Two merges, with the entries that the two parents have themselves on top. */
  ghost function Layers(a: Fields, b: Fields, x: Fields, y: Fields): Fields {
    (b + a) + (y + x)
  }

  lemma LayerOf(a: Fields, b: Fields, x: Fields, y: Fields)
    requires SubMap(x, a) && SubMap(y, b)
    ensures Layers(a, b, x, y).Keys == a.Keys + b.Keys
    ensures forall k :: k in Layers(a, b, x, y) ==>
              Layers(a, b, x, y)[k] == if k in x then a[k] else if k in y then b[k] else if k in a then a[k] else b[k]
  {
  }

  /** Every field comes from the type itself or from the merge of one of its parents. */
  ghost predicate ForkEntry(own: Fields, a: Fields, b: Fields, entry: Fields) {
    && SubMap(own, entry)
    && forall k :: k in entry && k !in own ==> (k in a && entry[k] == a[k]) || (k in b && entry[k] == b[k])
  }

  ghost predicate ForksEntry(h: Hierarchy, rank: Rank, raw: Table, t: TypeName, entry: Fields)
    requires Acyclic(h, rank)
  {
    forall p, q :: Fork(h, rank, t, p, q) ==>
      ForkEntry(EntryOf(raw, t), Merged(h, rank, raw, p), Merged(h, rank, raw, q), entry)
  }

  ghost predicate ForksSound(h: Hierarchy, rank: Rank, raw: Table, table: Table)
    requires Acyclic(h, rank)
  {
    forall t :: t in table ==> ForksEntry(h, rank, raw, t, table[t])
  }

  /** What holds of the table at any time, whatever entries have been rewritten. */
  ghost predicate TableInv(h: Hierarchy, rank: Rank, raw: Table, table: Table)
    requires Acyclic(h, rank)
  {
    Sound(h, rank, raw, table) && Faithful(h, raw, table) && ForksSound(h, rank, raw, table)
  }

  lemma RewritingKeepsTable(h: Hierarchy, rank: Rank, raw: Table, table: Table, t: TypeName, entry: Fields)
    requires Acyclic(h, rank) && TableInv(h, rank, raw, table) && t in raw
    requires SubMap(raw[t], entry) && Drawn(h, raw, t, entry) && ForksEntry(h, rank, raw, t, entry)
    requires Linear(h, rank, t) ==> SoundEntry(h, rank, raw, t, entry)
    ensures TableInv(h, rank, raw, table[t := entry])
  {
    RewrittenEntryIsSound(h, rank, raw, table, t, entry);
  }

  /** What a fork has collected from its parents so far. */
  ghost predicate ForksInherit(h: Hierarchy, rank: Rank, raw: Table, t: TypeName, inherited: Fields)
    requires Acyclic(h, rank)
  {
    forall p, q :: Fork(h, rank, t, p, q) ==>
      ForkEntry(map[], Merged(h, rank, raw, p), Merged(h, rank, raw, q), inherited)
  }

  lemma MoreInherited(h: Hierarchy, rank: Rank, raw: Table, t: TypeName, parent: TypeName, inherited: Fields, more: Fields)
    requires Acyclic(h, rank) && ForksInherit(h, rank, raw, t, inherited) && parent in ParentsOf(h, t)
    requires Linear(h, rank, parent) ==> SubMap(more, Merged(h, rank, raw, parent))
    ensures ForksInherit(h, rank, raw, t, inherited + more)
  {
  }

  lemma EntryOverInherited(h: Hierarchy, rank: Rank, raw: Table, t: TypeName, inherited: Fields, entry: Fields)
    requires Acyclic(h, rank) && ForksInherit(h, rank, raw, t, inherited) && ForksEntry(h, rank, raw, t, entry)
    ensures ForksEntry(h, rank, raw, t, inherited + entry)
  {
  }

  lemma RawTableHolds(h: Hierarchy, rank: Rank, raw: Table)
    requires Acyclic(h, rank)
    ensures TableInv(h, rank, raw, raw)
  {
    RawTableIsSound(h, rank, raw);
  }

  /** The parents agree on the fields they share and the type does not define itself. */
  ghost predicate ParentsAgree(h: Hierarchy, rank: Rank, raw: Table, t: TypeName, p: TypeName, q: TypeName)
    requires Acyclic(h, rank) && Fork(h, rank, t, p, q)
  {
    var a, b := Merged(h, rank, raw, p), Merged(h, rank, raw, q);
    forall k :: k in a && k in b && k !in EntryOf(raw, t) ==> a[k] == b[k]
  }

  lemma SameFields(a: Fields, b: Fields, x: Fields, y: Fields, x': Fields, y': Fields, own: Fields, entry: Fields)
    requires SubMap(x, a) && SubMap(x', a) && SubMap(y, b) && SubMap(y', b) && ForkEntry(own, a, b, entry)
    requires forall k :: k in a && k in b && k !in own ==> a[k] == b[k]
    ensures Layers(a, b, x', y') + entry == Layers(a, b, x, y) + own
  {
    LayerOf(a, b, x, y);
    LayerOf(a, b, x', y');
    var after, before := Layers(a, b, x', y') + entry, Layers(a, b, x, y) + own;
    forall k
      ensures k in after <==> k in before
      ensures k in after && k in before ==> after[k] == before[k]
    {
    }
  }

  lemma EntryBelowMerge(h: Hierarchy, rank: Rank, table: Table, t: TypeName)
    requires Acyclic(h, rank) && Linear(h, rank, t)
    ensures SubMap(EntryOf(table, t), Merged(h, rank, table, t))
  {
    MergedIsEntryOverParents(h, rank, table, t);
  }

  lemma SameAnswerable(h: Hierarchy, rank: Rank, raw: Table, table: Table, t: TypeName)
    requires Acyclic(h, rank) && table.Keys == raw.Keys
    ensures Lookup(h, rank, table, t).Some? <==> Lookup(h, rank, raw, t).Some?
  {
    assert forall a :: a in table <==> a in raw;
  }

  /** Whatever the order in which the entries have been rewritten, a type with two parents
      that agree answers like the raw table. */
  lemma AgreeingParentsAnswerAlike(h: Hierarchy, rank: Rank, raw: Table, table: Table, t: TypeName, p: TypeName, q: TypeName)
    requires Acyclic(h, rank) && Fork(h, rank, t, p, q) && ParentsAgree(h, rank, raw, t, p, q)
    requires Sound(h, rank, raw, table) && ForksSound(h, rank, raw, table)
    ensures Lookup(h, rank, table, t) == Lookup(h, rank, raw, t)
  {
    ForkLookup(h, rank, table, t, p, q);
    ForkLookup(h, rank, raw, t, p, q);
    SoundTableMergesAlike(h, rank, raw, table, p);
    SoundTableMergesAlike(h, rank, raw, table, q);
    EntryBelowMerge(h, rank, raw, p);
    EntryBelowMerge(h, rank, raw, q);
    EntryBelowMerge(h, rank, table, p);
    EntryBelowMerge(h, rank, table, q);
    SameFields(Merged(h, rank, raw, p), Merged(h, rank, raw, q), EntryOf(raw, p), EntryOf(raw, q),
               EntryOf(table, p), EntryOf(table, q), EntryOf(raw, t), EntryOf(table, t));
    SameAnswerable(h, rank, raw, table, t);
  }

  lemma MergedEntryDiffers(a: Fields, b: Fields, x: Fields, y: Fields, x': Fields, y': Fields, own: Fields)
    requires SubMap(x, a) && SubMap(x', a) && SubMap(y, b) && SubMap(y', b)
    ensures Layers(a, b, x', y') + ((a + b) + own) == Layers(a, b, x, y) + own <==>
            forall k :: k in a && k in b && k !in own ==> a[k] == b[k] || (k in y && k !in x)
  {
    LayerOf(a, b, x, y);
    LayerOf(a, b, x', y');
    var after, before := Layers(a, b, x', y') + ((a + b) + own), Layers(a, b, x, y) + own;
    assert after.Keys == before.Keys;
    if after == before {
      forall k | k in a && k in b && k !in own
        ensures a[k] == b[k] || (k in y && k !in x)
      {
        assert after[k] == before[k] && after[k] == b[k];
      }
    } else {
      var k :| k in after && after[k] != before[k];
      assert k in a && k in b && k !in own;
    }
  }

  /** Why the exact merge is promised for single inheritance only: the rewrite merges two
      parents in `extends` order, the lookup takes the nearest. Once the entry of a type
      with two parents has been rewritten from their merges, its lookup gives the answer of
      the raw table exactly when the parents agree on every field they share and the type
      does not define, except for fields that the second defines itself and the first only
      inherits. It does not matter which other entries have been rewritten. */
  lemma TwoParentsAgreeExactlyWhen(h: Hierarchy, rank: Rank, raw: Table, table: Table, t: TypeName, p: TypeName, q: TypeName)
    requires Acyclic(h, rank) && Fork(h, rank, t, p, q)
    requires Sound(h, rank, raw, table) && t in raw
    ensures var a, b := Merged(h, rank, raw, p), Merged(h, rank, raw, q);
            Lookup(h, rank, table[t := (a + b) + raw[t]], t) == Lookup(h, rank, raw, t) <==>
            forall k :: k in a && k in b && k !in raw[t] ==>
              a[k] == b[k] || (k in EntryOf(raw, q) && k !in EntryOf(raw, p))
  {
    var a, b := Merged(h, rank, raw, p), Merged(h, rank, raw, q);
    var rewritten := table[t := (a + b) + raw[t]];
    assert Sound(h, rank, raw, rewritten);
    ForkLookup(h, rank, rewritten, t, p, q);
    ForkLookup(h, rank, raw, t, p, q);
    SoundTableMergesAlike(h, rank, raw, rewritten, p);
    SoundTableMergesAlike(h, rank, raw, rewritten, q);
    EntryBelowMerge(h, rank, raw, p);
    EntryBelowMerge(h, rank, raw, q);
    EntryBelowMerge(h, rank, rewritten, p);
    EntryBelowMerge(h, rank, rewritten, q);
    MergedEntryDiffers(a, b, EntryOf(raw, p), EntryOf(raw, q), EntryOf(rewritten, p), EntryOf(rewritten, q), raw[t]);
    assert t in [t] + AllParents(h, rank, t);
    SameAnswerable(h, rank, raw, rewritten, t);
  }
}
