/** The API objects the operator reads and writes, reduced to the fields its code touches. */
module Api {
  datatype Option<+T> = None | Some(value: T)

  /** One key type for both binding kinds: RBACGroupBinding and ClusterRBACGroupBinding. The managed
      RoleBinding or ClusterRoleBinding always has the key of its binding. */
  datatype Key = Namespaced(namespace: string, name: string) | ClusterWide(name: string)

  const RBAC_GROUP := "rbac.authorization.k8s.io"
  const USER_KIND := "User"
  const CLUSTER_ROLE_KIND := "ClusterRole"

  datatype Subject = Subject(kind: string, apiGroup: string, namespace: string, name: string)

  datatype RoleRef = RoleRef(apiGroup: string, kind: string, name: string)

  datatype OwnerRef = OwnerRef(kind: string, name: string, uid: nat, controller: bool, blockOwnerDeletion: bool)

  /** What a RoleBinding or ClusterRoleBinding grants, to whom, and who owns it. */
  datatype Content = Content(roleRef: RoleRef, subjects: seq<Subject>, owners: seq<OwnerRef>)

  /** A stored RoleBinding or ClusterRoleBinding. `version` is its resourceVersion. */
  datatype RbacObject = RbacObject(uid: nat, version: nat, content: Content)

  /** spec.roleRef of the namespaced kind, spec.clusterRoleRef of the cluster kind. */
  datatype RoleSpec = RoleRefSpec(kind: string, name: string) | ClusterRoleRefSpec(name: string)

  datatype Spec = Spec(providerRef: string, groupDN: string, role: RoleSpec)

  datatype ConditionType = Ready | Degraded | GroupNotFound

  datatype Reason = SyncSucceeded | LDAPUnreachable | GroupMissing | InvalidSpec

  datatype Condition = Condition(kind: ConditionType, isTrue: bool, reason: Reason)

  /** SHA-256 is symbolic: a digest stands for the text that was hashed. */
  datatype Digest = Sha256(text: string)

  /** The status fields that describe the last successful sync. */
  datatype Summary = Summary(
    memberCount: int, preview: seq<string>, truncated: bool, hash: Option<Digest>,
    lastSyncTime: Option<nat>, managedRef: Option<string>)

  const NO_SUMMARY := Summary(0, [], false, None, None, None)

  datatype Status = Status(observedGeneration: nat, conditions: seq<Condition>, summary: Summary)

  const EMPTY_STATUS := Status(0, [], NO_SUMMARY)

  datatype Binding = Binding(uid: nat, generation: nat, version: nat, spec: Spec, status: Status)
}

/** Status conditions: the upsert by type that meta.SetStatusCondition performs. */
module Conditions {
  import opened Api

  function Set(cs: seq<Condition>, c: Condition): seq<Condition> {
    if cs == [] then [c]
    else if cs[0].kind == c.kind then [c] + cs[1..]
    else [cs[0]] + Set(cs[1..], c)
  }

  /** findCondition: the first condition of that type, if any. */
  function Find(cs: seq<Condition>, kind: ConditionType): Option<Condition> {
    if cs == [] then None
    else if cs[0].kind == kind then Some(cs[0])
    else Find(cs[1..], kind)
  }

  predicate IsTrue(cs: seq<Condition>, kind: ConditionType) {
    var c := Find(cs, kind);
    c.Some? && c.value.isTrue
  }

  ghost predicate UniqueTypes(cs: seq<Condition>) {
    forall i, j :: 0 <= i < j < |cs| ==> cs[i].kind != cs[j].kind
  }

  /** Find returns the first condition of the type, and None exactly when there is none. */
  lemma {:induction false} FindIsFirst(cs: seq<Condition>, kind: ConditionType)
    ensures Find(cs, kind) == None <==> forall i :: 0 <= i < |cs| ==> cs[i].kind != kind
    ensures forall i :: 0 <= i < |cs| && cs[i].kind == kind && (forall j :: 0 <= j < i ==> cs[j].kind != kind) ==>
      Find(cs, kind) == Some(cs[i])
  {
    if cs == [] {
    } else if cs[0].kind != kind {
      FindIsFirst(cs[1..], kind);
      assert forall i :: 0 < i < |cs| ==> cs[i] == cs[1..][i - 1];
      assert forall i :: 0 <= i < |cs| - 1 ==> cs[1..][i] == cs[i + 1];
    }
  }

  lemma {:induction false} FindAfterSet(cs: seq<Condition>, c: Condition, kind: ConditionType)
    ensures Find(Set(cs, c), kind) == if kind == c.kind then Some(c) else Find(cs, kind)
  {
    if cs == [] {
    } else if cs[0].kind != c.kind {
      FindAfterSet(cs[1..], c, kind);
      assert Set(cs, c)[1..] == Set(cs[1..], c);
    } else {
      assert Set(cs, c)[1..] == cs[1..];
    }
  }

  lemma {:induction false} SetKinds(cs: seq<Condition>, c: Condition)
    ensures forall x :: x in Set(cs, c) ==> x == c || x in cs
  {
    if cs != [] && cs[0].kind != c.kind {
      SetKinds(cs[1..], c);
    }
  }

  lemma {:induction false} SetKeepsUnique(cs: seq<Condition>, c: Condition)
    requires UniqueTypes(cs)
    ensures UniqueTypes(Set(cs, c))
  {
    if cs == [] {
    } else if cs[0].kind != c.kind {
      SetKeepsUnique(cs[1..], c);
      SetKinds(cs[1..], c);
      var rest := Set(cs[1..], c);
      forall j | 0 <= j < |rest| ensures cs[0].kind != rest[j].kind {
        assert rest[j] in rest;
        if rest[j] != c {
          var m :| 0 <= m < |cs[1..]| && cs[1..][m] == rest[j];
        }
      }
    }
  }
}
