/** The cluster and namespace a user lands in by default (pkg/signup/service/signup_service.go). */
module DefaultTarget {
  import opened Text
  import opened Sorting

  datatype Namespace = Namespace(name: string, kind: string)

  datatype Space = Space(targetCluster: string, namespaces: seq<Namespace>)

  const DEFAULT_KIND: string := "default"

  function FirstDefault(namespaces: seq<Namespace>): string {
    if namespaces == [] then ""
    else if namespaces[0].kind == DEFAULT_KIND then namespaces[0].name
    else FirstDefault(namespaces[1..])
  }

  function TargetOf(spaces: map<string, Space>, name: string): (string, string) {
    if name !in spaces then ("", "") else (spaces[name].targetCluster, FirstDefault(spaces[name].namespaces))
  }

  predicate IsLeast(name: string, names: seq<string>) {
    name in names && forall n :: n in names ==> NotAfter(name, n)
  }

  /** `bound` is the list of spaces the user is bound to, `None` when listing failed. With no home space
      the target is that of the least space name. */
  method GetDefaultUserTarget(spaces: map<string, Space>, spaceName: string, bound: Option<seq<string>>)
    returns (cluster: string, namespace: string)
    ensures spaceName != "" ==> (cluster, namespace) == TargetOf(spaces, spaceName)
    ensures spaceName == "" && (bound.None? || bound.value == []) ==> cluster == namespace == ""
    ensures spaceName == "" && bound.Some? && bound.value != [] ==>
      exists least :: IsLeast(least, bound.value) && (cluster, namespace) == TargetOf(spaces, least)
  {
    var name := spaceName;
    if name == "" {
      if bound.None? || |bound.value| == 0 {
        return "", "";
      }
      var spaceNames := SortBy((n: string) => n, bound.value);
      assert |spaceNames| == |multiset(spaceNames)| == |bound.value|;
      name := spaceNames[0];
      assert IsLeast(name, bound.value) by {
        assert spaceNames[0] in multiset(spaceNames);
        forall n | n in bound.value ensures NotAfter(name, n) {
          assert n in multiset(spaceNames);
          assert n in spaceNames;
          BeforeTotal(name, name);
        }
      }
    }
    if name !in spaces {
      return "", "";
    }
    var space := spaces[name];
    var defaultNamespace := "";
    var i := 0;
    while i < |space.namespaces|
      invariant 0 <= i <= |space.namespaces| && defaultNamespace == ""
      invariant FirstDefault(space.namespaces[i..]) == FirstDefault(space.namespaces)
    {
      assert space.namespaces[i..][1..] == space.namespaces[i + 1..];
      if space.namespaces[i].kind == DEFAULT_KIND {
        defaultNamespace := space.namespaces[i].name;
        break;
      }
      i := i + 1;
    }
    return space.targetCluster, defaultNamespace;
  }

  /** The target is the cluster of the space and the first of its namespaces that is of the default kind, "" if
      there is none; an unknown space has neither. */
  lemma {:induction false} TargetExactly(spaces: map<string, Space>, name: string)
    ensures var (cluster, namespace) := TargetOf(spaces, name);
            if name !in spaces then cluster == "" && namespace == ""
            else
              var namespaces := spaces[name].namespaces;
              && cluster == spaces[name].targetCluster
              && (|| (namespace == "" && forall k :: 0 <= k < |namespaces| ==> namespaces[k].kind != DEFAULT_KIND)
                  || (exists k :: 0 <= k < |namespaces| && namespaces[k] == Namespace(namespace, DEFAULT_KIND)
                                  && forall j :: 0 <= j < k ==> namespaces[j].kind != DEFAULT_KIND))
  {
    if name in spaces {
      FirstDefaultIsFirst(spaces[name].namespaces);
    }
  }

  lemma {:induction false} FirstDefaultIsFirst(namespaces: seq<Namespace>)
    ensures var namespace := FirstDefault(namespaces);
            || (namespace == "" && forall k :: 0 <= k < |namespaces| ==> namespaces[k].kind != DEFAULT_KIND)
            || (exists k :: 0 <= k < |namespaces| && namespaces[k] == Namespace(namespace, DEFAULT_KIND)
                            && forall j :: 0 <= j < k ==> namespaces[j].kind != DEFAULT_KIND)
  {
    if namespaces != [] && namespaces[0].kind != DEFAULT_KIND {
      var rest := namespaces[1..];
      FirstDefaultIsFirst(rest);
      assert namespaces == [namespaces[0]] + rest;
      if k :| 0 <= k < |rest| && rest[k] == Namespace(FirstDefault(rest), DEFAULT_KIND)
              && forall j :: 0 <= j < k ==> rest[j].kind != DEFAULT_KIND {
        assert namespaces[k + 1] == rest[k];
        forall j | 0 <= j < k + 1 ensures namespaces[j].kind != DEFAULT_KIND {
          if j > 0 { assert rest[j - 1].kind != DEFAULT_KIND; }
        }
      }
    } else if namespaces != [] {
      assert namespaces[0] == Namespace(FirstDefault(namespaces), DEFAULT_KIND);
    }
  }

  /** Permuted lists have the same least name. */
  lemma LeastIsOrderIndependent(a: seq<string>, b: seq<string>, x: string, y: string)
    requires multiset(a) == multiset(b)
    requires IsLeast(x, a) && IsLeast(y, b)
    ensures x == y
  {
    assert x in multiset(b) && y in multiset(a);
    assert x in b && y in a;
    BeforeTotal(x, y);
  }

  /** The order the bindings are listed in does not matter: the code gives the same answer on both. */
  method RunOnBothOrders(spaces: map<string, Space>, a: seq<string>, b: seq<string>)
    returns (first: (string, string), second: (string, string))
    requires multiset(a) == multiset(b)
    ensures first == second
  {
    var c1, n1 := GetDefaultUserTarget(spaces, "", Some(a));
    var c2, n2 := GetDefaultUserTarget(spaces, "", Some(b));
    assert |a| == |multiset(a)| == |multiset(b)| == |b|;
    if a != [] {
      var x :| IsLeast(x, a) && (c1, n1) == TargetOf(spaces, x);
      var y :| IsLeast(y, b) && (c2, n2) == TargetOf(spaces, y);
      LeastIsOrderIndependent(a, b, x, y);
    }
    return (c1, n1), (c2, n2);
  }
}
