/** `extendsProxyAuthBaseType`: a depth-first search over the `extends` lists
    with one visited set shared by all branches, on a hierarchy that may have cycles. */
module ProxyAuth {
  import opened Wrappers

  /** A credential type as listed; an `extends` that is not an array is None. */
  datatype CredentialType = CredentialType(name: string, extended: Option<seq<string>>)

  const BASE_TYPES: set<string> := {"oAuth2Api", "googleOAuth2Api", "oAuth1Api"}

  function Parents(credType: CredentialType): seq<string> {
    credType.extended.GetOr([])
  }

  /** The first listed type of that name. */
  function Find(types: seq<CredentialType>, name: string): (r: Option<CredentialType>)
    ensures r.Some? ==> exists i :: 0 <= i < |types| && types[i] == r.value && r.value.name == name
                                    && forall j :: 0 <= j < i ==> types[j].name != name
    ensures r.None? <==> forall t :: t in types ==> t.name != name
  {
    if types == [] then None
    else if types[0].name == name then Some(types[0])
    else
      var rest := Find(types[1..], name);
      assert rest.Some? ==> forall i :: 0 <= i < |types[1..]| ==> types[1..][i] == types[i + 1];
      rest
  }

  ghost function Names(types: seq<CredentialType>): set<string> {
    set t | t in types :: t.name
  }

  /** A walk along `extends` edges, through listed types only, ending in a base type. */
  ghost predicate IsBasePath(types: seq<CredentialType>, credType: CredentialType, path: seq<string>)
    decreases |path|
  {
    && path != []
    && path[0] in Parents(credType)
    && (if |path| == 1 then path[0] in BASE_TYPES
        else Find(types, path[0]).Some? && IsBasePath(types, Find(types, path[0]).value, path[1..]))
  }

  ghost predicate ReachesBase(types: seq<CredentialType>, credType: CredentialType) {
    exists path :: IsBasePath(types, credType, path)
  }

  /** All parents of the named type, if it is listed, are visited and none is a base type. */
  ghost predicate Expanded(types: seq<CredentialType>, name: string, visited: set<string>) {
    Find(types, name).Some? ==>
      forall p :: p in Parents(Find(types, name).value) ==> p in visited && p !in BASE_TYPES
  }

  /** No walk leaves a closed set, and a closed set holds no base type. */
  lemma {:induction false} ClosedSetHasNoBasePath(
    types: seq<CredentialType>, credType: CredentialType, visited: set<string>, path: seq<string>)
    requires forall p :: p in Parents(credType) ==> p in visited && p !in BASE_TYPES
    requires forall x :: x in visited ==> Expanded(types, x, visited)
    ensures !IsBasePath(types, credType, path)
    decreases |path|
  {
    if |path| > 1 && path[0] in Parents(credType) && Find(types, path[0]).Some? {
      assert Expanded(types, path[0], visited);
      ClosedSetHasNoBasePath(types, Find(types, path[0]).value, visited, path[1..]);
    }
  }

  lemma ExpansionSurvives(types: seq<CredentialType>, done: set<string>, visited: set<string>, more: set<string>)
    requires visited <= more
    requires forall x :: x in done ==> Expanded(types, x, visited)
    ensures forall x :: x in done ==> Expanded(types, x, more)
  {
  }

  /** The set object that all branches of the search share. */
  class NameSet {
    var names: set<string>

    constructor ()
      ensures names == {}
    {
      names := {};
    }
  }

  /** True exactly when a base type is reachable from the given credential type. */
  method ExtendsProxyAuthBaseType(types: seq<CredentialType>, credType: CredentialType) returns (r: bool)
    ensures r <==> ReachesBase(types, credType)
  {
    var seen := new NameSet();
    r := Search(types, credType, seen);
    if !r {
      forall path
        ensures !IsBasePath(types, credType, path)
      {
        ClosedSetHasNoBasePath(types, credType, seen.names, path);
      }
    }
  }

  /** One level of the search. Types whose expansion is still under way are already
      in `seen`; a failed search leaves every type it added fully expanded. */
  method Search(types: seq<CredentialType>, credType: CredentialType, seen: NameSet) returns (r: bool)
    modifies seen
    ensures old(seen.names) <= seen.names
    ensures r ==> ReachesBase(types, credType)
    ensures !r ==> forall p :: p in Parents(credType) ==> p in seen.names && p !in BASE_TYPES
    ensures !r ==> forall x :: x in seen.names - old(seen.names) ==> Expanded(types, x, seen.names)
    decreases Names(types) - seen.names
  {
    if credType.extended.None? {
      return false;
    }
    var parents := credType.extended.value;
    for i := 0 to |parents|
      invariant old(seen.names) <= seen.names
      invariant forall p :: p in parents[..i] ==> p in seen.names && p !in BASE_TYPES
      invariant forall x :: x in seen.names - old(seen.names) ==> Expanded(types, x, seen.names)
    {
      var parentName := parents[i];
      if parentName in BASE_TYPES {
        assert IsBasePath(types, credType, [parentName]);
        return true;
      }
      if parentName !in seen.names {
        ghost var before := seen.names;
        seen.names := seen.names + {parentName};
        var parent := Find(types, parentName);
        if parent.Some? {
          assert parentName in Names(types);
          r := Search(types, parent.value, seen);
          if r {
            ghost var path :| IsBasePath(types, parent.value, path);
            assert IsBasePath(types, credType, [parentName] + path);
            return true;
          }
          assert Expanded(types, parentName, seen.names);
        }
        ExpansionSurvives(types, before - old(seen.names), before, seen.names);
      }
    }
    assert parents[..|parents|] == parents;
    return false;
  }
}
