/** The `extends` relation between credential types, and what it means to be
    an ancestor. Paths are the reference definition: the algorithms elsewhere
    are proved against them. */
module TypeHierarchy {
  import opened Wrappers

  type TypeName = string

  /** The known types, each with its `extends` list; None is an absent list. */
  type Hierarchy = map<TypeName, Option<seq<TypeName>>>

  /** A rank that drops along every edge: the witness that the hierarchy is acyclic. */
  type Rank = map<TypeName, nat>

  function ParentsOf(h: Hierarchy, t: TypeName): seq<TypeName> {
    if t in h then h[t].GetOr([]) else []
  }

  ghost function RankOf(rank: Rank, t: TypeName): nat {
    if t in rank then rank[t] else 0
  }

  ghost predicate Acyclic(h: Hierarchy, rank: Rank) {
    forall t, p :: t in h && p in ParentsOf(h, t) ==> RankOf(rank, p) < RankOf(rank, t)
  }

  ghost predicate IsPath(h: Hierarchy, path: seq<TypeName>) {
    |path| > 0 && forall i {:trigger path[i]} :: 0 <= i < |path| - 1 ==> path[i + 1] in ParentsOf(h, path[i])
  }

  ghost predicate IsPathBetween(h: Hierarchy, path: seq<TypeName>, t: TypeName, a: TypeName) {
    IsPath(h, path) && |path| > 1 && path[0] == t && path[|path| - 1] == a
  }

  /** `a` is reached from `t` along one or more `extends` edges. */
  ghost predicate StrictAncestor(h: Hierarchy, t: TypeName, a: TypeName) {
    exists path :: IsPathBetween(h, path, t, a)
  }

  /** The type itself or one of its ancestors. */
  ghost predicate Reaches(h: Hierarchy, t: TypeName, a: TypeName) {
    a == t || StrictAncestor(h, t, a)
  }

  lemma ParentIsAncestor(h: Hierarchy, t: TypeName, p: TypeName)
    requires p in ParentsOf(h, t)
    ensures StrictAncestor(h, t, p)
  {
    assert IsPathBetween(h, [t, p], t, p);
  }

  lemma AncestorOfParent(h: Hierarchy, t: TypeName, p: TypeName, a: TypeName)
    requires p in ParentsOf(h, t) && StrictAncestor(h, p, a)
    ensures StrictAncestor(h, t, a)
  {
    var path :| IsPathBetween(h, path, p, a);
    assert IsPathBetween(h, [t] + path, t, a);
  }

  lemma AncestorsCompose(h: Hierarchy, t: TypeName, m: TypeName, a: TypeName)
    requires StrictAncestor(h, t, m) && StrictAncestor(h, m, a)
    ensures StrictAncestor(h, t, a)
  {
    var p :| IsPathBetween(h, p, t, m);
    var q :| IsPathBetween(h, q, m, a);
    assert IsPathBetween(h, p + q[1..], t, a);
  }

  lemma ReachesComposes(h: Hierarchy, t: TypeName, m: TypeName, a: TypeName)
    requires Reaches(h, t, m) && Reaches(h, m, a)
    ensures Reaches(h, t, a)
  {
    if m != t && a != m {
      AncestorsCompose(h, t, m, a);
    }
  }

  /** The first edge of a path leads to the ancestor itself or to a type below it. */
  lemma AncestorThroughParent(h: Hierarchy, t: TypeName, a: TypeName) returns (p: TypeName)
    requires StrictAncestor(h, t, a)
    ensures p in ParentsOf(h, t) && (p == a || StrictAncestor(h, p, a))
  {
    var path :| IsPathBetween(h, path, t, a);
    p := path[1];
    if |path| > 2 {
      assert IsPathBetween(h, path[1..], p, a);
    }
  }

  lemma {:induction false} PathLowersRank(h: Hierarchy, rank: Rank, path: seq<TypeName>)
    requires Acyclic(h, rank) && IsPath(h, path) && |path| > 1
    ensures RankOf(rank, path[|path| - 1]) < RankOf(rank, path[0])
  {
    assert path[1] in ParentsOf(h, path[0]);
    if |path| > 2 {
      assert IsPath(h, path[1..]);
      PathLowersRank(h, rank, path[1..]);
    }
  }

  /** Ancestors rank strictly lower, so no type is its own ancestor. */
  lemma AncestorRanksLower(h: Hierarchy, rank: Rank, t: TypeName, a: TypeName)
    requires Acyclic(h, rank) && StrictAncestor(h, t, a)
    ensures RankOf(rank, a) < RankOf(rank, t)
  {
    var path :| IsPathBetween(h, path, t, a);
    PathLowersRank(h, rank, path);
  }

  /** Every type from `t` upwards has at most one parent. */
  ghost predicate Linear(h: Hierarchy, rank: Rank, t: TypeName)
    requires Acyclic(h, rank)
    decreases RankOf(rank, t)
  {
    var parents := ParentsOf(h, t);
    |parents| == 0 || (|parents| == 1 && Linear(h, rank, parents[0]))
  }

  /** The strict ancestors of a type with a linear hierarchy above it, nearest first. */
  ghost function Chain(h: Hierarchy, rank: Rank, t: TypeName): seq<TypeName>
    requires Acyclic(h, rank) && Linear(h, rank, t)
    decreases RankOf(rank, t)
  {
    var parents := ParentsOf(h, t);
    if parents == [] then [] else [parents[0]] + Chain(h, rank, parents[0])
  }

  lemma {:induction false} ChainIsAncestors(h: Hierarchy, rank: Rank, t: TypeName, a: TypeName)
    requires Acyclic(h, rank) && Linear(h, rank, t)
    ensures a in Chain(h, rank, t) <==> StrictAncestor(h, t, a)
    decreases RankOf(rank, t)
  {
    var parents := ParentsOf(h, t);
    if parents == [] {
      if StrictAncestor(h, t, a) {
        var p := AncestorThroughParent(h, t, a);
      }
    } else {
      ParentIsAncestor(h, t, parents[0]);
      ChainIsAncestors(h, rank, parents[0], a);
      if a in Chain(h, rank, parents[0]) {
        AncestorOfParent(h, t, parents[0], a);
      }
      if StrictAncestor(h, t, a) {
        var p := AncestorThroughParent(h, t, a);
      }
    }
  }
}
