/** `CredentialTypes.getParentTypes`: a worklist that grows while it is iterated. */
module CredentialTypes {
  import opened TypeHierarchy

  // ---- Why the worklist is finite ----

  /** `n` times `c`, as a sum: keeps the bounds below linear. */
  ghost function Times(n: nat, c: nat): nat {
    if n == 0 then 0 else c + Times(n - 1, c)
  }

  lemma {:induction false} TimesGrows(m: nat, n: nat, c: nat, d: nat)
    requires m <= n && c <= d
    ensures Times(m, c) <= Times(n, d)
  {
    if m > 0 {
      TimesGrows(m - 1, n - 1, c, d);
    }
  }

  /** How many list elements a type of rank `r` gives rise to, itself included,
      when no type has more than `width` parents. */
  ghost function Cost(width: nat, r: nat): nat
    decreases r, 1
  {
    if r == 0 then 1 else 1 + Times(Appended(width, r), Cost(width, r - 1))
  }

  /** How many parent types a type of rank `r` can return. */
  ghost function Appended(width: nat, r: nat): nat
    decreases r, 0
  {
    if r == 0 then 0 else Times(width, Cost(width, r - 1))
  }

  ghost function TotalCost(width: nat, rank: Rank, types: seq<TypeName>): nat {
    if types == [] then 0
    else Cost(width, RankOf(rank, types[0])) + TotalCost(width, rank, types[1..])
  }

  ghost predicate WidthAtMost(h: Hierarchy, width: nat) {
    forall t :: t in h ==> |ParentsOf(h, t)| <= width
  }

  lemma {:induction false} SomeWidthExists(h: Hierarchy, types: set<TypeName>) returns (width: nat)
    ensures forall t :: t in types ==> |ParentsOf(h, t)| <= width
    decreases types
  {
    if types == {} {
      width := 0;
    } else {
      var t :| t in types;
      width := SomeWidthExists(h, types - {t});
      if |ParentsOf(h, t)| > width {
        width := |ParentsOf(h, t)|;
      }
    }
  }

  lemma {:induction false} CostGrows(width: nat, r: nat, s: nat)
    requires r <= s
    ensures Cost(width, r) <= Cost(width, s) && Appended(width, r) <= Appended(width, s)
    decreases s
  {
    if 0 < r {
      CostGrows(width, r - 1, s - 1);
      TimesGrows(width, width, Cost(width, r - 1), Cost(width, s - 1));
      TimesGrows(Appended(width, r), Appended(width, s), Cost(width, r - 1), Cost(width, s - 1));
    }
  }

  lemma {:induction false} TotalCostAppend(width: nat, rank: Rank, a: seq<TypeName>, b: seq<TypeName>)
    ensures TotalCost(width, rank, a + b) == TotalCost(width, rank, a) + TotalCost(width, rank, b)
  {
    if a == [] {
      assert a + b == b;
    } else {
      assert (a + b)[1..] == a[1..] + b;
      TotalCostAppend(width, rank, a[1..], b);
    }
  }

  lemma {:induction false} TotalCostBound(width: nat, rank: Rank, types: seq<TypeName>, r: nat)
    requires forall x :: x in types ==> RankOf(rank, x) <= r
    ensures TotalCost(width, rank, types) <= Times(|types|, Cost(width, r))
  {
    if types != [] {
      CostGrows(width, RankOf(rank, types[0]), r);
      TotalCostBound(width, rank, types[1..], r);
    }
  }

  /** The bound a recursive call delivers pays for the elements it appends. */
  lemma AppendedCost(width: nat, rank: Rank, t: TypeName, appended: seq<TypeName>)
    requires forall x :: x in appended ==> RankOf(rank, x) < RankOf(rank, t)
    requires |appended| <= Appended(width, RankOf(rank, t))
    ensures 1 + TotalCost(width, rank, appended) <= Cost(width, RankOf(rank, t))
  {
    var r := RankOf(rank, t);
    if r > 0 {
      TotalCostBound(width, rank, appended, r - 1);
      TimesGrows(|appended|, Appended(width, r), Cost(width, r - 1), Cost(width, r - 1));
    }
  }

  lemma ParentsCost(h: Hierarchy, rank: Rank, width: nat, t: TypeName)
    requires Acyclic(h, rank) && WidthAtMost(h, width)
    ensures TotalCost(width, rank, ParentsOf(h, t)) <= Appended(width, RankOf(rank, t))
  {
    var parents := ParentsOf(h, t);
    if parents != [] {
      var r := RankOf(rank, t);
      assert RankOf(rank, parents[0]) < r;
      TotalCostBound(width, rank, parents, r - 1);
      TimesGrows(|parents|, width, Cost(width, r - 1), Cost(width, r - 1));
    }
  }

  // ---- What the worklist yields ----

  lemma WidthExists(h: Hierarchy)
    ensures exists width: nat :: WidthAtMost(h, width)
  {
    var width := SomeWidthExists(h, h.Keys);
    assert WidthAtMost(h, width);
  }

  /** A bound on the number of parents of any type. */
  ghost function Width(h: Hierarchy): (width: nat)
    ensures WidthAtMost(h, width)
  {
    WidthExists(h);
    var width: nat :| WidthAtMost(h, width);
    width
  }

  /** The list of parent types: the direct ones first, then what each element of the list
      has above it, in the order in which the elements come up. Types may occur again. */
  ghost function ParentList(h: Hierarchy, rank: Rank, width: nat, t: TypeName): (types: seq<TypeName>)
    requires Acyclic(h, rank) && WidthAtMost(h, width)
    ensures |types| <= Appended(width, RankOf(rank, t))
    ensures forall x :: x in types ==> RankOf(rank, x) < RankOf(rank, t)
    decreases RankOf(rank, t), 1, 0
  {
    ParentsCost(h, rank, width, t);
    Worklist(h, rank, width, RankOf(rank, t), ParentsOf(h, t))
  }

  /** A queue whose elements are taken from the front, each putting its own list at the end. */
  ghost function Worklist(h: Hierarchy, rank: Rank, width: nat, below: nat, queue: seq<TypeName>): (types: seq<TypeName>)
    requires Acyclic(h, rank) && WidthAtMost(h, width)
    requires forall x :: x in queue ==> RankOf(rank, x) < below
    ensures |types| <= TotalCost(width, rank, queue)
    ensures forall x :: x in types ==> RankOf(rank, x) < below
    decreases below, 0, TotalCost(width, rank, queue)
  {
    if queue == [] then []
    else
      var more := ParentList(h, rank, width, queue[0]);
      AppendedCost(width, rank, queue[0], more);
      TotalCostAppend(width, rank, queue[1..], more);
      [queue[0]] + Worklist(h, rank, width, below, queue[1..] + more)
  }

  ghost function AllParents(h: Hierarchy, rank: Rank, t: TypeName): seq<TypeName>
    requires Acyclic(h, rank)
  {
    ParentList(h, rank, Width(h), t)
  }

  // ---- First occurrences ----

  /** The list without its repetitions, in order of first occurrence. */
  function FirstOccurrences(s: seq<TypeName>): seq<TypeName> {
    if s == [] then []
    else
      var front, last := s[..|s| - 1], s[|s| - 1];
      if last in front then FirstOccurrences(front) else FirstOccurrences(front) + [last]
  }

  lemma {:induction false} RepetitionsAddNothing(s: seq<TypeName>, more: seq<TypeName>)
    requires forall x :: x in more ==> x in s
    ensures FirstOccurrences(s + more) == FirstOccurrences(s)
  {
    if more == [] {
      assert s + more == s;
    } else {
      var front, last := more[..|more| - 1], more[|more| - 1];
      var whole := s + more;
      assert whole[..|whole| - 1] == s + front && whole[|whole| - 1] == last;
      assert last in more && last in s + front;
      RepetitionsAddNothing(s, front);
    }
  }

  lemma {:induction false} FreshHeadStays(x: TypeName, s: seq<TypeName>)
    requires x !in s
    ensures FirstOccurrences([x] + s) == [x] + FirstOccurrences(s)
  {
    if s == [] {
      assert [x] + s == [x];
      assert FirstOccurrences([x]) == FirstOccurrences([]) + [x];
    } else {
      var front, last := s[..|s| - 1], s[|s| - 1];
      var whole := [x] + s;
      assert whole[..|whole| - 1] == [x] + front && whole[|whole| - 1] == last;
      FreshHeadStays(x, front);
      assert last in front <==> last in [x] + front;
      assert [x] + FirstOccurrences(front) + [last] == [x] + (FirstOccurrences(front) + [last]);
    }
  }

  // ---- What the loop knows, and the method ----

  /** Every ancestor of an already processed element is in the list. */
  ghost predicate Closed(h: Hierarchy, types: seq<TypeName>, processed: nat)
    requires processed <= |types|
  {
    forall i, a :: 0 <= i < processed && StrictAncestor(h, types[i], a) ==> a in types
  }

  lemma ClosedHoldsAllAncestors(h: Hierarchy, t: TypeName, types: seq<TypeName>)
    requires forall p :: p in ParentsOf(h, t) ==> p in types
    requires Closed(h, types, |types|)
    ensures forall a :: StrictAncestor(h, t, a) ==> a in types
  {
    forall a | StrictAncestor(h, t, a)
      ensures a in types
    {
      var p := AncestorThroughParent(h, t, a);
      var i :| 0 <= i < |types| && types[i] == p;
    }
  }

  /** What the loop knows after `processed` elements. */
  ghost predicate Progress(
    h: Hierarchy, rank: Rank, typeName: TypeName, types: seq<TypeName>, processed: nat)
    requires Acyclic(h, rank)
  {
    && processed <= |types|
    && ParentsOf(h, typeName) <= types
    && (forall a :: a in types ==> StrictAncestor(h, typeName, a))
    && Closed(h, types, processed)
    && (if processed == 0 then types == ParentsOf(h, typeName)
        else Linear(h, rank, typeName) ==> FirstOccurrences(types) == Chain(h, rank, typeName))
  }

  /** Returns all parent types of the given credential type. The list grows while
      it is iterated; it ends up holding exactly the strict ancestors, and above a
      type with a linear hierarchy their first occurrences come nearest first. */
  method GetParentTypes(h: Hierarchy, typeName: TypeName, ghost rank: Rank) returns (types: seq<TypeName>)
    requires Acyclic(h, rank)
    ensures forall a :: a in types <==> StrictAncestor(h, typeName, a)
    ensures Linear(h, rank, typeName) ==> FirstOccurrences(types) == Chain(h, rank, typeName)
    ensures types == AllParents(h, rank, typeName)
  {
    ghost var width := Width(h);
    types := CollectParentTypes(h, typeName, rank, width);
    ParentListIsAncestors(h, rank, width, typeName);
  }

  method CollectParentTypes(h: Hierarchy, typeName: TypeName, ghost rank: Rank, ghost width: nat)
    returns (types: seq<TypeName>)
    requires Acyclic(h, rank) && WidthAtMost(h, width)
    ensures types == ParentList(h, rank, width, typeName)
    decreases RankOf(rank, typeName)
  {
    types := ParentsOf(h, typeName);
    OnTrackAtStart(h, rank, width, typeName);
    var i := 0;
    while i < |types|
      invariant OnTrack(h, rank, width, typeName, types, i)
      decreases TotalCost(width, rank, types[i..])
    {
      assert types[i] in types[i..];
      var more := CollectParentTypes(h, types[i], rank, width);
      WorklistCost(h, rank, width, types, i, more);
      StayOnTrack(h, rank, width, typeName, types, i, types + more);
      types := types + more;
      i := i + 1;
    }
    OnTrackAtEnd(h, rank, width, typeName, types);
  }

  /** The parent list holds exactly the strict ancestors; on a linear chain their first
      occurrences come nearest first. */
  lemma {:induction false} ParentListIsAncestors(h: Hierarchy, rank: Rank, width: nat, t: TypeName)
    requires Acyclic(h, rank) && WidthAtMost(h, width)
    ensures forall a :: a in ParentList(h, rank, width, t) <==> StrictAncestor(h, t, a)
    ensures Linear(h, rank, t) ==> FirstOccurrences(ParentList(h, rank, width, t)) == Chain(h, rank, t)
    decreases RankOf(rank, t), 1, 0
  {
    OnTrackAtStart(h, rank, width, t);
    StartOfWorklist(h, rank, t);
    WorklistIsAncestors(h, rank, width, t, ParentsOf(h, t), 0);
  }

  lemma {:induction false} WorklistIsAncestors(
    h: Hierarchy, rank: Rank, width: nat, t: TypeName, types: seq<TypeName>, i: nat)
    requires Acyclic(h, rank) && WidthAtMost(h, width)
    requires Progress(h, rank, t, types, i) && OnTrack(h, rank, width, t, types, i)
    ensures forall a :: a in ParentList(h, rank, width, t) <==> StrictAncestor(h, t, a)
    ensures Linear(h, rank, t) ==> FirstOccurrences(ParentList(h, rank, width, t)) == Chain(h, rank, t)
    decreases RankOf(rank, t), 0, TotalCost(width, rank, types[i..])
  {
    if i == |types| {
      EndOfWorklist(h, rank, t, types);
      OnTrackAtEnd(h, rank, width, t, types);
    } else {
      assert types[i] in types[i..];
      var more := ParentList(h, rank, width, types[i]);
      ParentListIsAncestors(h, rank, width, types[i]);
      WorklistCost(h, rank, width, types, i, more);
      WorklistStep(h, rank, t, types, i, more);
      StayOnTrack(h, rank, width, t, types, i, types + more);
      WorklistIsAncestors(h, rank, width, t, types + more, i + 1);
    }
  }

  lemma QueueRanks(h: Hierarchy, rank: Rank, width: nat, below: nat, types: seq<TypeName>, i: nat)
    requires Acyclic(h, rank) && WidthAtMost(h, width) && i < |types|
    requires forall x :: x in types[i..] ==> RankOf(rank, x) < below
    ensures forall x :: x in (types + ParentList(h, rank, width, types[i]))[i + 1..] ==> RankOf(rank, x) < below
  {
    var more := ParentList(h, rank, width, types[i]);
    assert types[i] in types[i..];
    assert types[i..] == [types[i]] + types[i + 1..];
    assert (types + more)[i + 1..] == types[i + 1..] + more;
  }

  /** Processing an element moves it from the queue to the finished part of the list. */
  lemma WorklistUnfolds(
    h: Hierarchy, rank: Rank, width: nat, below: nat, types: seq<TypeName>, i: nat, all: seq<TypeName>)
    requires Acyclic(h, rank) && WidthAtMost(h, width) && i < |types|
    requires forall x :: x in types[i..] ==> RankOf(rank, x) < below
    requires all == types + ParentList(h, rank, width, types[i])
    requires forall x :: x in all[i + 1..] ==> RankOf(rank, x) < below
    ensures Worklist(h, rank, width, below, types[i..]) == [types[i]] + Worklist(h, rank, width, below, all[i + 1..])
  {
    assert types[i..] != [] && types[i..][0] == types[i];
    assert all[i + 1..] == types[i..][1..] + ParentList(h, rank, width, types[i]);
  }

  /** The list so far, continued from its unprocessed part, is the parent list. */
  ghost predicate OnTrack(h: Hierarchy, rank: Rank, width: nat, typeName: TypeName, types: seq<TypeName>, i: nat)
    requires Acyclic(h, rank) && WidthAtMost(h, width)
  {
    && i <= |types|
    && (forall x :: x in types[i..] ==> RankOf(rank, x) < RankOf(rank, typeName))
    && types[..i] + Worklist(h, rank, width, RankOf(rank, typeName), types[i..]) == ParentList(h, rank, width, typeName)
  }

  lemma StayOnTrack(
    h: Hierarchy, rank: Rank, width: nat, typeName: TypeName, types: seq<TypeName>, i: nat, all: seq<TypeName>)
    requires Acyclic(h, rank) && WidthAtMost(h, width) && i < |types|
    requires OnTrack(h, rank, width, typeName, types, i) && all == types + ParentList(h, rank, width, types[i])
    ensures OnTrack(h, rank, width, typeName, all, i + 1)
  {
    var below := RankOf(rank, typeName);
    QueueRanks(h, rank, width, below, types, i);
    WorklistUnfolds(h, rank, width, below, types, i, all);
    assert all[..i + 1] == types[..i] + [types[i]];
    Regroup(types[..i], types[i], Worklist(h, rank, width, below, all[i + 1..]));
  }

  lemma Regroup(a: seq<TypeName>, x: TypeName, b: seq<TypeName>)
    ensures (a + [x]) + b == a + ([x] + b)
  {
  }

  lemma OnTrackAtStart(h: Hierarchy, rank: Rank, width: nat, typeName: TypeName)
    requires Acyclic(h, rank) && WidthAtMost(h, width)
    ensures OnTrack(h, rank, width, typeName, ParentsOf(h, typeName), 0)
  {
    var parents := ParentsOf(h, typeName);
    assert parents[0..] == parents && parents[..0] == [];
  }

  lemma OnTrackAtEnd(h: Hierarchy, rank: Rank, width: nat, typeName: TypeName, types: seq<TypeName>)
    requires Acyclic(h, rank) && WidthAtMost(h, width)
    requires OnTrack(h, rank, width, typeName, types, |types|)
    ensures types == ParentList(h, rank, width, typeName)
  {
    assert types[|types|..] == [] && types[..|types|] == types;
  }

  lemma StartOfWorklist(h: Hierarchy, rank: Rank, typeName: TypeName)
    requires Acyclic(h, rank)
    ensures Progress(h, rank, typeName, ParentsOf(h, typeName), 0)
  {
    forall p | p in ParentsOf(h, typeName)
      ensures StrictAncestor(h, typeName, p)
    {
      ParentIsAncestor(h, typeName, p);
    }
  }

  lemma WorklistCost(
    h: Hierarchy, rank: Rank, width: nat, types: seq<TypeName>, i: nat, more: seq<TypeName>)
    requires Acyclic(h, rank) && i < |types|
    requires forall a :: a in more ==> RankOf(rank, a) < RankOf(rank, types[i])
    requires |more| <= Appended(width, RankOf(rank, types[i]))
    ensures 1 + TotalCost(width, rank, (types + more)[i + 1..]) <= TotalCost(width, rank, types[i..])
  {
    AppendedCost(width, rank, types[i], more);
    TotalCostAppend(width, rank, types[i + 1..], more);
    assert types[i..][1..] == types[i + 1..];
    assert (types + more)[i + 1..] == types[i + 1..] + more;
  }

  lemma WorklistStep(
    h: Hierarchy, rank: Rank, typeName: TypeName, types: seq<TypeName>, i: nat, more: seq<TypeName>)
    requires Acyclic(h, rank) && i < |types|
    requires Progress(h, rank, typeName, types, i)
    requires forall a :: a in more <==> StrictAncestor(h, types[i], a)
    requires Linear(h, rank, types[i]) ==> FirstOccurrences(more) == Chain(h, rank, types[i])
    ensures Progress(h, rank, typeName, types + more, i + 1)
  {
    assert types[i] in types;
    forall a | a in more
      ensures StrictAncestor(h, typeName, a)
    {
      AncestorsCompose(h, typeName, types[i], a);
    }
    if Linear(h, rank, typeName) {
      KeepNearestFirst(h, rank, typeName, types, i, more);
    }
  }

  lemma EndOfWorklist(h: Hierarchy, rank: Rank, typeName: TypeName, types: seq<TypeName>)
    requires Acyclic(h, rank) && Progress(h, rank, typeName, types, |types|)
    ensures forall a :: StrictAncestor(h, typeName, a) ==> a in types
    ensures Linear(h, rank, typeName) ==> FirstOccurrences(types) == Chain(h, rank, typeName)
  {
    var parents := ParentsOf(h, typeName);
    forall p | p in parents
      ensures p in types
    {
      var j :| 0 <= j < |parents| && parents[j] == p;
      assert types[j] == p;
    }
    ClosedHoldsAllAncestors(h, typeName, types);
  }

  /** One pass of the worklist keeps the first occurrences equal to the chain. */
  lemma KeepNearestFirst(
    h: Hierarchy, rank: Rank, typeName: TypeName, types: seq<TypeName>, i: nat, more: seq<TypeName>)
    requires Acyclic(h, rank) && Linear(h, rank, typeName) && i < |types|
    requires forall a :: a in more <==> StrictAncestor(h, types[i], a)
    requires Linear(h, rank, types[i]) ==> FirstOccurrences(more) == Chain(h, rank, types[i])
    requires i == 0 ==> types == ParentsOf(h, typeName)
    requires i > 0 ==> FirstOccurrences(types) == Chain(h, rank, typeName)
    requires forall a :: a in types ==> StrictAncestor(h, typeName, a)
    ensures FirstOccurrences(types + more) == Chain(h, rank, typeName)
  {
    var parents := ParentsOf(h, typeName);
    if i == 0 {
      assert types == [parents[0]];
      if parents[0] in more {
        AncestorRanksLower(h, rank, parents[0], parents[0]);
      }
      FreshHeadStays(parents[0], more);
    } else {
      forall a | a in more
        ensures a in types
      {
        assert types[i] in types;
        AncestorsCompose(h, typeName, types[i], a);
        ChainIsAncestors(h, rank, typeName, a);
        SameElements(types, a);
      }
      RepetitionsAddNothing(types, more);
    }
  }

  lemma {:induction false} SameElements(s: seq<TypeName>, x: TypeName)
    ensures x in FirstOccurrences(s) <==> x in s
  {
    if s != [] {
      var front, last := s[..|s| - 1], s[|s| - 1];
      assert s == front + [last];
      SameElements(front, x);
    }
  }
}
