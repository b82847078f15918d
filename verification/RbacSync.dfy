/** internal/rbacsync: the desired object, the diff that decides whether to write, the status summary. */
module RbacSync {
  import opened Api
  import opened Ordering

  // ---------- Desired object ----------

  function UserSubject(member: string): Subject {
    Subject(USER_KIND, RBAC_GROUP, "", member)
  }

  function UserSubjects(members: seq<string>): (s: seq<Subject>) {
    seq(|members|, i requires 0 <= i < |members| => UserSubject(members[i]))
  }

  method Subjects(members: seq<string>) returns (subjects: seq<Subject>)
    ensures subjects == UserSubjects(members)
  {
    subjects := [];
    for i := 0 to |members|
      invariant subjects == UserSubjects(members)[..i]
    {
      subjects := subjects + [UserSubject(members[i])];
    }
  }

  function DesiredRole(role: RoleSpec): RoleRef {
    match role
    case RoleRefSpec(kind, name) => RoleRef(RBAC_GROUP, kind, name)
    case ClusterRoleRefSpec(name) => RoleRef(RBAC_GROUP, CLUSTER_ROLE_KIND, name)
  }

  /** The controller reference that SetControllerReference puts on the managed object. */
  function ControllerRef(key: Key, b: Binding): OwnerRef {
    var kind := if key.ClusterWide? then "ClusterRBACGroupBinding" else "RBACGroupBinding";
    OwnerRef(kind, key.name, b.uid, true, true)
  }

  function Desired(key: Key, b: Binding, members: seq<string>): Content {
    Content(DesiredRole(b.spec.role), UserSubjects(members), [ControllerRef(key, b)])
  }

  /** Same role, same owners, same subjects in any order. */
  predicate Matches(actual: Content, desired: Content) {
    && actual.roleRef == desired.roleRef
    && actual.owners == desired.owners
    && multiset(actual.subjects) == multiset(desired.subjects)
  }

  // ---------- SubjectsEqual ----------

  /** The comparator of sortedSubjects: kind, namespace, name; apiGroup is not compared. */
  predicate SubjectLess(x: Subject, y: Subject) {
    if x.kind != y.kind then StringLess(x.kind, y.kind)
    else if x.namespace != y.namespace then StringLess(x.namespace, y.namespace)
    else StringLess(x.name, y.name)
  }

  predicate SubjectLeq(x: Subject, y: Subject) {
    !SubjectLess(y, x)
  }

  predicate SameSortKey(x: Subject, y: Subject) {
    x.kind == y.kind && x.namespace == y.namespace && x.name == y.name
  }

  /** The fields that are compared determine the one that is not. */
  ghost predicate GroupDetermined(s: seq<Subject>) {
    forall x, y :: x in s && y in s && SameSortKey(x, y) ==> x.apiGroup == y.apiGroup
  }

  lemma SubjectOrder()
    ensures TotalPreorder(SubjectLeq)
    ensures forall x, y :: SubjectLeq(x, y) && SubjectLeq(y, x) <==> SameSortKey(x, y)
  {
    StringOrder();
  }

  lemma SeparatesIffDetermined(s: seq<Subject>)
    ensures OrderSeparates(s, SubjectLeq) <==> GroupDetermined(s)
  {
    SubjectOrder();
  }

  /** sort.Slice: in place and unstable, so any sorted permutation may result. */
  method SortSlice(a: array<Subject>)
    modifies a
    ensures SortedPermutation(a[..], old(a[..]), SubjectLeq)
  {
    SubjectOrder();
    var was := a[..];
    ghost var example := SortExists(was, SubjectLeq);
    var out: seq<Subject> :| SortedPermutation(out, was, SubjectLeq);
    assert SortedPermutation(out, was, SubjectLeq);
    SameLength(out, was);
    forall i | 0 <= i < a.Length {
      a[i] := out[i];
    }
    assert a[..] == out;
  }

  method SortedSubjects(subjects: seq<Subject>) returns (sorted: seq<Subject>)
    ensures SortedPermutation(sorted, subjects, SubjectLeq)
  {
    var out := new Subject[|subjects|](i requires 0 <= i < |subjects| => subjects[i]);
    assert out[..] == subjects;
    SortSlice(out);
    sorted := out[..];
  }

  /** Whatever the sort does, `true` means the same subjects, and the same subjects give `true`
      whenever the sort key determines the API group. */
  method SubjectsEqual(a: seq<Subject>, b: seq<Subject>) returns (equal: bool)
    ensures equal ==> multiset(a) == multiset(b)
    ensures multiset(a) == multiset(b) && GroupDetermined(a) ==> equal
  {
    if |a| != |b| {
      assert |multiset(a)| == |a| && |multiset(b)| == |b|;
      return false;
    }
    var sortedA := SortedSubjects(a);
    var sortedB := SortedSubjects(b);
    assert |multiset(sortedA)| == |multiset(a)| && |multiset(sortedB)| == |multiset(b)|;
    if multiset(a) == multiset(b) && GroupDetermined(a) {
      SortsAgree(a, sortedA, sortedB);
    }
    for i := 0 to |sortedA|
      invariant sortedA[..i] == sortedB[..i]
    {
      if sortedA[i] != sortedB[i] {
        return false;
      }
    }
    assert sortedA == sortedA[..|sortedA|] == sortedB;
    return true;
  }

  lemma SortsAgree(s: seq<Subject>, p: seq<Subject>, q: seq<Subject>)
    requires GroupDetermined(s)
    requires SortedPermutation(p, s, SubjectLeq)
    requires multiset(q) == multiset(s) && Sorted(q, SubjectLeq)
    ensures p == q
  {
    SubjectOrder();
    SeparatesIffDetermined(s);
    forall x | x in p ensures x in s {
      SameElements(p, s, x);
    }
    SortUnique(p, q, SubjectLeq);
  }

  /** The comparison is independent of the sorting algorithm exactly when the key determines the group. */
  lemma SortIndependentIffDetermined(s: seq<Subject>)
    ensures (forall p, q :: SortedPermutation(p, s, SubjectLeq) && SortedPermutation(q, s, SubjectLeq) ==> p == q)
       <==> GroupDetermined(s)
  {
    if GroupDetermined(s) {
      forall p, q | SortedPermutation(p, s, SubjectLeq) && SortedPermutation(q, s, SubjectLeq) ensures p == q {
        SortsAgree(s, p, q);
      }
    } else {
      var p, q := TwoSorts(s);
    }
  }

  lemma TwoSorts(s: seq<Subject>) returns (p: seq<Subject>, q: seq<Subject>)
    requires !GroupDetermined(s)
    ensures SortedPermutation(p, s, SubjectLeq) && SortedPermutation(q, s, SubjectLeq) && p != q
  {
    var x, y :| x in s && y in s && SameSortKey(x, y) && x.apiGroup != y.apiGroup;
    SubjectOrder();
    p := SortExists(s, SubjectLeq);
    SameElements(p, s, x);
    SameElements(p, s, y);
    var i :| 0 <= i < |p| && p[i] == x;
    var j :| 0 <= j < |p| && p[j] == y;
    var lo, hi := if i < j then i else j, if i < j then j else i;
    SwapEquivalent(p, lo, hi, SubjectLeq);
    q := p[lo := p[hi]][hi := p[lo]];
    assert q[lo] != p[lo];
  }

  lemma UserSubjectsMembership(members: seq<string>, x: Subject)
    ensures x in UserSubjects(members) ==> x == UserSubject(x.name) && x.name in members
  {
  }

  /** Each name is a subject as often as it is a member. */
  lemma {:induction false} SubjectsCount(members: seq<string>, x: string)
    ensures multiset(UserSubjects(members))[UserSubject(x)] == multiset(members)[x]
  {
    if members == [] {
      assert UserSubjects(members) == [];
    } else {
      var front, last := members[..|members| - 1], members[|members| - 1];
      SubjectsCount(front, x);
      assert members == front + [last];
      assert UserSubjects(members) == UserSubjects(front) + [UserSubject(last)];
    }
  }

  /** Everything Subjects builds is unambiguous, so against a desired list SubjectsEqual is exact,
      whatever drifted list is stored. */
  lemma DesiredSubjectsAreExact(stored: seq<Subject>, members: seq<string>)
    ensures multiset(stored) == multiset(UserSubjects(members)) ==> GroupDetermined(stored)
  {
    if multiset(stored) == multiset(UserSubjects(members)) {
      forall x | x in stored ensures x.apiGroup == RBAC_GROUP {
        SameElements(stored, UserSubjects(members), x);
        UserSubjectsMembership(members, x);
      }
    }
  }

  // ---------- What the object grants, in plain values ----------

  /** The content grants exactly the spec's role to exactly these members, as users, and is controlled by the binding
      of that key and uid alone. */
  ghost predicate GrantsExactly(c: Content, key: Key, b: Binding, members: seq<string>) {
    && c.roleRef.apiGroup == "rbac.authorization.k8s.io"
    && (b.spec.role.RoleRefSpec? ==> c.roleRef.kind == b.spec.role.kind && c.roleRef.name == b.spec.role.name)
    && (b.spec.role.ClusterRoleRefSpec? ==> c.roleRef.kind == "ClusterRole" && c.roleRef.name == b.spec.role.name)
    && (key.Namespaced? ==> c.owners == [OwnerRef("RBACGroupBinding", key.name, b.uid, true, true)])
    && (key.ClusterWide? ==> c.owners == [OwnerRef("ClusterRBACGroupBinding", key.name, b.uid, true, true)])
    && |c.subjects| == |members|
    && forall x: string ::
         multiset(c.subjects)[Subject("User", "rbac.authorization.k8s.io", "", x)] == multiset(members)[x]
  }

  lemma MatchingGrantsExactly(c: Content, key: Key, b: Binding, members: seq<string>)
    requires Matches(c, Desired(key, b, members))
    ensures GrantsExactly(c, key, b, members)
    ensures forall y :: y in c.subjects ==> y == Subject("User", "rbac.authorization.k8s.io", "", y.name)
  {
    SameLength(c.subjects, UserSubjects(members));
    forall x: string
      ensures multiset(c.subjects)[Subject("User", "rbac.authorization.k8s.io", "", x)] == multiset(members)[x]
    {
      SubjectsCount(members, x);
    }
    forall y | y in c.subjects ensures y == UserSubject(y.name) {
      SameElements(c.subjects, UserSubjects(members), y);
      UserSubjectsMembership(members, y);
    }
  }

  /** And nothing else does: what grants exactly this is what the comparison accepts, in any order of the subjects. */
  lemma GrantsExactlyIffMatches(c: Content, key: Key, b: Binding, members: seq<string>)
    ensures GrantsExactly(c, key, b, members) <==> Matches(c, Desired(key, b, members))
  {
    if Matches(c, Desired(key, b, members)) {
      MatchingGrantsExactly(c, key, b, members);
    }
    if GrantsExactly(c, key, b, members) {
      var have, want := multiset(c.subjects), multiset(UserSubjects(members));
      forall y | y in want ensures want[y] <= have[y] {
        assert y in UserSubjects(members);
        UserSubjectsMembership(members, y);
        SubjectsCount(members, y.name);
        assert have[Subject("User", "rbac.authorization.k8s.io", "", y.name)] == multiset(members)[y.name];
      }
      assert have == want + (have - want);
      assert |have| == |c.subjects| && |want| == |UserSubjects(members)|;
    }
  }

  // ---------- Status summary ----------

  const PREVIEW_CAP := 20
  const MAX_INT32 := 0x7fff_ffff

  function PreviewMembers(members: seq<string>): (seq<string>, bool) {
    if |members| <= PREVIEW_CAP then (members, false) else (members[..PREVIEW_CAP], true)
  }

  /** memberCount clamps instead of wrapping. */
  function MemberCount(members: seq<string>): int {
    if |members| > MAX_INT32 then MAX_INT32 else |members|
  }

  /** strings.Join(members, "\n") */
  function JoinLines(members: seq<string>): string {
    if |members| == 0 then ""
    else if |members| == 1 then members[0]
    else members[0] + "\n" + JoinLines(members[1..])
  }

  function MembersHash(members: seq<string>): Digest {
    Sha256(JoinLines(members))
  }

  /** The summary fields markReady writes. */
  function SyncSummary(key: Key, members: seq<string>, now: nat): Summary {
    var (preview, truncated) := PreviewMembers(members);
    Summary(MemberCount(members), preview, truncated, Some(MembersHash(members)), Some(now), Some(key.name))
  }

  /** What the summary promises about a member list, without saying how it is computed. */
  ghost predicate Summarizes(s: Summary, key: Key, members: seq<string>) {
    && s.memberCount <= |members| && s.memberCount <= 0x7fff_ffff
    && (s.memberCount == |members| || s.memberCount == 0x7fff_ffff)
    && s.hash == Some(Sha256(JoinLines(members)))
    && s.managedRef == Some(key.name)
    && (s.truncated <==> |members| > 20)
    && Sorted(s.preview, StringLeq)
    && exists omitted: seq<string> ::
         && multiset(members) == multiset(s.preview) + multiset(omitted)
         && (s.truncated ==> |s.preview| == 20) && (!s.truncated ==> omitted == [])
         && forall x, y :: x in s.preview && y in omitted ==> StringLeq(x, y)
  }

  /** For a sorted list the stored preview is its smallest names, flag, count and hash speak of that list, and the
      reference names the managed object. */
  lemma SummaryIsFaithful(key: Key, members: seq<string>, now: nat)
    requires Sorted(members, StringLeq)
    ensures Summarizes(SyncSummary(key, members, now), key, members)
    ensures SyncSummary(key, members, now).lastSyncTime == Some(now)
  {
    var s := SyncSummary(key, members, now);
    PrefixIsSmallest(members, |s.preview|);
    assert multiset(members) == multiset(s.preview) + multiset(members[|s.preview|..]);
  }

  /** The first names of a sorted list are its smallest, and in order. */
  lemma PrefixIsSmallest(members: seq<string>, n: nat)
    requires Sorted(members, StringLeq) && n <= |members|
    ensures Sorted(members[..n], StringLeq)
    ensures multiset(members) == multiset(members[..n]) + multiset(members[n..])
    ensures forall x, y :: x in members[..n] && y in members[n..] ==> StringLeq(x, y)
  {
    assert members == members[..n] + members[n..];
    forall x, y | x in members[..n] && y in members[n..] ensures StringLeq(x, y) {
      var i :| 0 <= i < n && members[..n][i] == x;
      var j :| 0 <= j < |members| - n && members[n..][j] == y;
      assert members[i] == x && members[n + j] == y;
    }
  }

  /** The hashed text: the names in order, a line feed between two of them and nowhere else. */
  lemma {:induction false} JoinSeparates(members: seq<string>, last: string)
    ensures JoinLines([]) == "" && JoinLines([last]) == last
    ensures members != [] ==> JoinLines(members + [last]) == JoinLines(members) + "\n" + last
  {
    if |members| == 1 {
      assert (members + [last])[1..] == [last];
    } else if |members| > 1 {
      JoinSeparates(members[1..], last);
      assert (members + [last])[1..] == members[1..] + [last];
    }
  }

  // ---------- The hashed text ----------

  ghost predicate NewlineFree(s: string) {
    forall i :: 0 <= i < |s| ==> s[i] != '\n'
  }

  function Lines(text: string): (r: seq<string>)
    ensures |r| >= 1
  {
    if text == "" then [""]
    else
      var rest := Lines(text[1..]);
      if text[0] == '\n' then [""] + rest else [[text[0]] + rest[0]] + rest[1..]
  }

  function SplitLines(text: string): seq<string> {
    if text == "" then [] else Lines(text)
  }

  lemma {:induction false} LinesAreNewlineFree(text: string)
    ensures forall i :: 0 <= i < |Lines(text)| ==> NewlineFree(Lines(text)[i])
  {
    if text != "" {
      LinesAreNewlineFree(text[1..]);
    }
  }

  lemma {:induction false} LinesOfOne(m: string)
    requires NewlineFree(m)
    ensures Lines(m) == [m]
  {
    if m != "" {
      LinesOfOne(m[1..]);
      assert m == [m[0]] + m[1..];
    }
  }

  lemma {:induction false} LinesOfCons(m: string, text: string)
    requires NewlineFree(m)
    ensures Lines(m + "\n" + text) == [m] + Lines(text)
  {
    var whole := m + "\n" + text;
    if m == "" {
      assert whole[1..] == text;
    } else {
      LinesOfCons(m[1..], text);
      assert whole[1..] == m[1..] + "\n" + text;
      assert m == [m[0]] + m[1..];
    }
  }

  lemma {:induction false} LinesOfJoin(members: seq<string>)
    requires members != [] && forall i :: 0 <= i < |members| ==> NewlineFree(members[i])
    ensures Lines(JoinLines(members)) == members
  {
    if |members| == 1 {
      LinesOfOne(members[0]);
    } else {
      LinesOfJoin(members[1..]);
      LinesOfCons(members[0], JoinLines(members[1..]));
    }
  }

  lemma {:induction false} JoinEmptyText(members: seq<string>)
    ensures JoinLines(members) == "" <==> members == [] || members == [""]
  {
    if |members| == 1 {
      assert members == [members[0]];
    }
  }

  /** Splitting undoes joining exactly for lists of newline-free names other than the list of one empty name. */
  lemma SplitUndoesJoinIff(members: seq<string>)
    ensures SplitLines(JoinLines(members)) == members
       <==> (forall i :: 0 <= i < |members| ==> NewlineFree(members[i])) && members != [""]
  {
    JoinEmptyText(members);
    LinesAreNewlineFree(JoinLines(members));
    if members != [] && (forall i :: 0 <= i < |members| ==> NewlineFree(members[i])) {
      LinesOfJoin(members);
    }
  }

  /** On the lists the resolver can return, the hashed text identifies the list. */
  lemma HashedTextIdentifies(ms: seq<string>, ns: seq<string>)
    requires forall i :: 0 <= i < |ms| ==> NewlineFree(ms[i]) && ms[i] != ""
    requires forall i :: 0 <= i < |ns| ==> NewlineFree(ns[i]) && ns[i] != ""
    ensures MembersHash(ms) == MembersHash(ns) <==> ms == ns
  {
    SplitUndoesJoinIff(ms);
    SplitUndoesJoinIff(ns);
  }

  /** A name with a newline can make two different lists hash the same text. */
  lemma NewlineCollides()
    ensures exists ms, ns: seq<string> :: ms != ns && MembersHash(ms) == MembersHash(ns)
  {
    var ms, ns := ["a\nb"], ["a", "b"];
    assert JoinLines(ns) == ns[0] + "\n" + JoinLines(ns[1..]);
    assert JoinLines(ns[1..]) == "b";
    assert JoinLines(ns) == "a\nb";
    assert |ms| != |ns|;
    assert MembersHash(ms) == MembersHash(ns);
  }
}
