/** One reconcile at a time: convergence, quiescence, recovery after an interruption, and
    independence of distinct bindings. */
module Convergence {
  import opened Api
  import C = Conditions
  import opened RbacSync
  import opened Protocol

  // ---------- A reference semantics of the managed object ----------

  /** The object a reconcile leaves behind, written directly from what it could read and which writes
      took effect, without the steps of the protocol. */
  function FinalContent(b: Option<Binding>, known: bool, rb: Option<Content>, k: Key, env: Env): Option<Content> {
    if b.None? || !env.bindingRead || !env.providerRead || !known || !env.answer.Members? || !env.rbRead then rb
    else
      var desired := Desired(k, b.value, env.answer.names);
      if rb.None? then (if env.create.LostRequest? then None else Some(desired))
      else if rb.value.roleRef != desired.roleRef then
        if env.delete.LostRequest? then rb
        else if env.delete.LostReply? || env.create.LostRequest? then None
        else Some(desired)
      else if Matches(rb.value, desired) || env.update.LostRequest? then rb
      else Some(desired)
  }

  ghost predicate ProviderKnown(s: Store, k: Key) {
    k in s.bindings && s.bindings[k].spec.providerRef in s.providers
  }

  /** Only the key's own objects can change, and of its own binding only the status. */
  ghost predicate OnlyKeyChanged(s: Store, s': Store, k: Key) {
    && s'.providers == s.providers
    && (forall k' :: k' != k ==> BindingAt(s', k') == BindingAt(s, k') && (k' in s'.rbs <==> k' in s.rbs))
    && (forall k' :: k' != k && k' in s.rbs ==> s'.rbs[k'] == s.rbs[k'])
    && (k in s'.bindings <==> k in s.bindings)
    && (k in s.bindings ==> SameVersion(s'.bindings[k], s.bindings[k]))
  }

  ghost predicate SameVersion(a: Binding, b: Binding) {
    a.uid == b.uid && a.generation == b.generation && a.spec == b.spec
  }

  lemma RbacCallOwnKey(s: Store, k: Key, l: Local, env: Env)
    requires l.Differs? || l.Deleted? || l.Absent? || l.Stale?
    ensures OnlyKeyChanged(s, Advance(s, k, l, env).0, k)
  {
  }

  lemma StatusCallOwnKey(s: Store, k: Key, b: Binding, f: Fault)
    ensures OnlyKeyChanged(s, UpdateStatus(s, k, b, f).0, k)
  {
  }

  lemma AdvanceOwnKey(s: Store, k: Key, l: Local, env: Env)
    ensures OnlyKeyChanged(s, Advance(s, k, l, env).0, k)
  {
    match l
    case Synced(b, members, _) => StatusCallOwnKey(s, k, MarkReady(k, b, members, env.now), env.status);
    case Failing(b) => StatusCallOwnKey(s, k, MarkDegraded(b), env.status);
    case Missing(b) => StatusCallOwnKey(s, k, MarkGroupNotFound(b), env.status);
    case Differs(_, _, _) => RbacCallOwnKey(s, k, l, env);
    case Deleted(_, _) => RbacCallOwnKey(s, k, l, env);
    case Absent(_, _) => RbacCallOwnKey(s, k, l, env);
    case Stale(_, _, _) => RbacCallOwnKey(s, k, l, env);
    case _ =>
  }

  lemma {:induction false} DriveOwnKey(s: Store, k: Key, l: Local, env: Env)
    ensures OnlyKeyChanged(s, Drive(s, k, l, env).0, k)
    decreases Rank(l)
  {
    if !l.Finished? {
      var (s', l') := Advance(s, k, l, env);
      AdvanceOwnKey(s, k, l, env);
      DriveOwnKey(s', k, l', env);
    }
  }

  /** After its RBAC step a reconcile touches no RBAC object. */
  lemma StatusPhaseKeepsRbac(s: Store, k: Key, l: Local, env: Env)
    requires l.Synced? || l.Failing? || l.Missing? || l.Finished?
    ensures Drive(s, k, l, env).0.rbs == s.rbs
  {
    if !l.Finished? {
      var (s', l') := Advance(s, k, l, env);
      assert l'.Finished?;
      assert Drive(s, k, l, env) == Drive(s', k, l', env);
    }
  }

  lemma RbPhaseThenStatus(s: Store, k: Key, b: Binding, members: seq<string>, env: Env)
    ensures RbPhaseOver(RbPhase(s, k, b, members, env).1)
    ensures var (s', l') := RbPhase(s, k, b, members, env);
      Drive(s, k, HaveMembers(b, members), env) == Drive(s', k, l', env)
  {
    var (s1, l1) := Advance(s, k, HaveMembers(b, members), env);
    assert Drive(s, k, HaveMembers(b, members), env) == Drive(s1, k, l1, env);
    if !RbPhaseOver(l1) {
      var (s2, l2) := Advance(s1, k, l1, env);
      assert Drive(s1, k, l1, env) == Drive(s2, k, l2, env);
      if !RbPhaseOver(l2) {
        var (s3, l3) := Advance(s2, k, l2, env);
        assert Drive(s2, k, l2, env) == Drive(s3, k, l3, env);
      }
    }
  }

  /** The RBAC step of the protocol meets the reference semantics. */
  lemma RbPhaseContent(s: Store, k: Key, b: Binding, env: Env)
    requires env.answer.Members? && env.bindingRead && env.providerRead
    ensures RbacAt(RbPhase(s, k, b, env.answer.names, env).0, k) == FinalContent(Some(b), true, RbacAt(s, k), k, env)
  {
  }

  /** A whole reconcile, with any faults, meets the reference semantics. */
  lemma DriveContent(s: Store, k: Key, env: Env)
    ensures RbacAt(Drive(s, k, Start, env).0, k)
         == FinalContent(BindingAt(s, k), ProviderKnown(s, k), RbacAt(s, k), k, env)
  {
    var (_, l1) := Advance(s, k, Start, env);
    assert Drive(s, k, Start, env) == Drive(s, k, l1, env);
    if l1.HaveBinding? {
      var (_, l2) := Advance(s, k, l1, env);
      assert Drive(s, k, l1, env) == Drive(s, k, l2, env);
      if l2.HaveProvider? {
        var (_, l3) := Advance(s, k, l2, env);
        assert Drive(s, k, l2, env) == Drive(s, k, l3, env);
        if l3.HaveMembers? {
          RbPhaseThenStatus(s, k, l1.b, env.answer.names, env);
          var (s4, l4) := RbPhase(s, k, l1.b, env.answer.names, env);
          StatusPhaseKeepsRbac(s4, k, l4, env);
          RbPhaseContent(s, k, l1.b, env);
        } else {
          StatusPhaseKeepsRbac(s, k, l3, env);
        }
      } else {
        StatusPhaseKeepsRbac(s, k, l2, env);
      }
    }
  }

  // ---------- Convergence and quiescence ----------

  /** From any store, one error-free reconcile leaves the desired role, owner and subjects. */
  lemma Converges(s: Store, k: Key, members: seq<string>, env: Env)
    requires ProviderKnown(s, k) && Clean(env, members)
    ensures var after := RbacAt(Drive(s, k, Start, env).0, k);
      after.Some? && Matches(after.value, Desired(k, s.bindings[k], members))
  {
    DriveContent(s, k, env);
  }

  /** The same in plain values: from any store, one error-free reconcile of a live binding leaves an object that
      grants the spec's role to exactly the members, as users, and that the binding alone controls. */
  lemma ReconcileGrantsExactly(s: Store, k: Key, members: seq<string>, env: Env)
    requires k in s.bindings && s.bindings[k].spec.providerRef in s.providers && Clean(env, members)
    ensures var s' := Drive(s, k, Start, env).0;
      k in s'.rbs && GrantsExactly(s'.rbs[k].content, k, s.bindings[k], members)
  {
    Converges(s, k, members, env);
    MatchingGrantsExactly(Drive(s, k, Start, env).0.rbs[k].content, k, s.bindings[k], members);
  }

  /** A second error-free reconcile with the same members makes no RBAC write at all. */
  lemma Quiescent(s: Store, k: Key, members: seq<string>, env: Env, env': Env)
    requires ProviderKnown(s, k) && Clean(env, members) && Clean(env', members)
    ensures var s1 := Drive(s, k, Start, env).0; Drive(s1, k, Start, env').0.rbs == s1.rbs
  {
    var s1 := Drive(s, k, Start, env).0;
    Converges(s, k, members, env);
    DriveOwnKey(s, k, Start, env);
    assert Desired(k, s1.bindings[k], members) == Desired(k, s.bindings[k], members);
    InSyncKeeps(s1, k, s1.bindings[k], members, env');
  }

  /** An error-free reconcile writes no RBAC object if and only if the one that is there already grants exactly what it
      should, in whatever order. */
  lemma WritesIffNeeded(s: Store, k: Key, members: seq<string>, env: Env)
    requires k in s.bindings && s.bindings[k].spec.providerRef in s.providers && Clean(env, members)
    ensures Drive(s, k, Start, env).0.rbs == s.rbs <==>
      k in s.rbs && GrantsExactly(s.rbs[k].content, k, s.bindings[k], members)
  {
    ReconcileGrantsExactly(s, k, members, env);
    if k in s.rbs && GrantsExactly(s.rbs[k].content, k, s.bindings[k], members) {
      GrantsExactlyIffMatches(s.rbs[k].content, k, s.bindings[k], members);
      InSyncKeeps(s, k, s.bindings[k], members, env);
    }
  }

  lemma InSyncKeeps(s: Store, k: Key, b: Binding, members: seq<string>, env: Env)
    requires BindingAt(s, k) == Some(b) && b.spec.providerRef in s.providers && Clean(env, members)
    requires k in s.rbs && Matches(s.rbs[k].content, Desired(k, b, members))
    ensures Drive(s, k, Start, env).0.rbs == s.rbs
  {
    assert Drive(s, k, Start, env) == Drive(s, k, HaveBinding(b), env);
    assert Drive(s, k, HaveBinding(b), env) == Drive(s, k, HaveProvider(b), env);
    assert Drive(s, k, HaveProvider(b), env) == Drive(s, k, HaveMembers(b, members), env);
    assert Advance(s, k, HaveMembers(b, members), env) == (s, Synced(b, members, Unchanged));
    assert Drive(s, k, HaveMembers(b, members), env) == Drive(s, k, Synced(b, members, Unchanged), env);
    StatusPhaseKeepsRbac(s, k, Synced(b, members, Unchanged), env);
  }

  function ObjectAt(s: Store, k: Key): Option<RbacObject> {
    if k in s.rbs then Some(s.rbs[k]) else None
  }

  /** What each outcome says happened to the stored object. */
  ghost predicate OutcomeNames(o: Outcome, before: Option<RbacObject>, after: Option<RbacObject>) {
    match o
    case Unchanged => before.Some? && after == before
    case Created => before.None? && after.Some?
    case Updated =>
      && before.Some? && after.Some? && after.value.uid == before.value.uid
      && after.value.content != before.value.content
      && after.value.content.roleRef == before.value.content.roleRef
    case Recreated =>
      && before.Some? && after.Some? && after.value.uid != before.value.uid
      && after.value.content.roleRef != before.value.content.roleRef
  }

  /** On success the outcome names exactly the store change made, and the object is the desired one. */
  lemma OutcomeIsExact(s: Store, k: Key, b: Binding, members: seq<string>, env: Env, o: Outcome)
    requires forall k' :: k' in s.rbs ==> s.rbs[k'].uid < s.clock
    requires RbPhase(s, k, b, members, env).1.Synced?
    ensures var (s', l') := RbPhase(s, k, b, members, env);
      && (l'.outcome == o <==> OutcomeNames(o, ObjectAt(s, k), ObjectAt(s', k)))
      && k in s'.rbs && Matches(s'.rbs[k].content, Desired(k, b, members))
  {
  }

  // ---------- What the status reports ----------

  /** Every call of the RBAC step that is made succeeds. */
  predicate RbacStepSucceeds(rb: Option<Content>, desired: Content, env: Env) {
    env.rbRead &&
    if rb.None? then env.create.NoFault?
    else if rb.value.roleRef != desired.roleRef then env.delete.NoFault? && env.create.NoFault?
    else Matches(rb.value, desired) || env.update.NoFault?
  }

  lemma RbPhaseSuccess(s: Store, k: Key, b: Binding, members: seq<string>, env: Env)
    ensures var l := RbPhase(s, k, b, members, env).1;
      && (l.Synced? <==> RbacStepSucceeds(RbacAt(s, k), Desired(k, b, members), env))
      && l.b == b && (l.Synced? ==> l.members == members)
    ensures RbPhase(s, k, b, members, env).0.bindings == s.bindings
  {
  }

  /** The status of a reconcile that read b: this type of condition is true and the two others are false, all three
      for this reason, about b's generation. */
  ghost predicate Reports(status: Status, b: Binding, verdict: ConditionType, reason: Reason) {
    && status.observedGeneration == b.generation
    && C.Find(status.conditions, Ready) == Some(Condition(Ready, verdict == Ready, reason))
    && C.Find(status.conditions, Degraded) == Some(Condition(Degraded, verdict == Degraded, reason))
    && C.Find(status.conditions, GroupNotFound) == Some(Condition(GroupNotFound, verdict == GroupNotFound, reason))
  }

  lemma MarksReport(k: Key, b: Binding, members: seq<string>, now: nat)
    ensures Reports(MarkReady(k, b, members, now).status, b, Ready, SyncSucceeded)
    ensures Reports(MarkDegraded(b).status, b, Degraded, LDAPUnreachable)
    ensures Reports(MarkGroupNotFound(b).status, b, GroupNotFound, GroupMissing)
  {
    var cs := b.status.conditions;
    FindAfterThree(cs, Condition(Ready, true, SyncSucceeded), Condition(Degraded, false, SyncSucceeded),
                   Condition(GroupNotFound, false, SyncSucceeded));
    FindAfterThree(cs, Condition(Ready, false, LDAPUnreachable), Condition(Degraded, true, LDAPUnreachable),
                   Condition(GroupNotFound, false, LDAPUnreachable));
    FindAfterThree(cs, Condition(Ready, false, GroupMissing), Condition(GroupNotFound, true, GroupMissing),
                   Condition(Degraded, false, GroupMissing));
  }

  /** What the store and the caller get from the last step of a reconcile that read b. */
  ghost predicate Told(s: Store, k: Key, b: Binding, verdict: ConditionType, reason: Reason, summary: Summary,
                       env: Env, s': Store, ok: bool)
  {
    && (env.status.LostRequest? ==> s'.bindings == s.bindings)
    && (!env.status.LostRequest? ==>
          && k in s'.bindings && Reports(s'.bindings[k].status, b, verdict, reason)
          && s'.bindings[k].status.summary == summary)
    && (ok <==> verdict != Degraded && env.status.NoFault?)
  }

  lemma StatusWritten(s: Store, k: Key, l: Local, env: Env)
    requires l.Synced? || l.Failing? || l.Missing?
    requires BindingAt(s, k) == Some(l.b)
    ensures var (s', ok) := Drive(s, k, l, env);
      var verdict := if l.Synced? then Ready else if l.Missing? then GroupNotFound else Degraded;
      var reason := if l.Synced? then SyncSucceeded else if l.Missing? then GroupMissing else LDAPUnreachable;
      var summary := if l.Synced? then SyncSummary(k, l.members, env.now) else l.b.status.summary;
      Told(s, k, l.b, verdict, reason, summary, env, s', ok)
  {
    var (s', l') := Advance(s, k, l, env);
    assert Drive(s, k, l, env) == Drive(s', k, l', env);
    MarksReport(k, l.b, if l.Synced? then l.members else [], env.now);
  }

  /** Three upserts of different types: each type reads back what was set. */
  lemma FindAfterThree(cs: seq<Condition>, c0: Condition, c1: Condition, c2: Condition)
    requires c0.kind != c1.kind && c0.kind != c2.kind && c1.kind != c2.kind
    ensures C.Find(Set3(cs, c0, c1, c2), c0.kind) == Some(c0)
    ensures C.Find(Set3(cs, c0, c1, c2), c1.kind) == Some(c1)
    ensures C.Find(Set3(cs, c0, c1, c2), c2.kind) == Some(c2)
  {
    var cs1 := C.Set(cs, c0);
    var cs2 := C.Set(cs1, c1);
    C.FindAfterSet(cs, c0, c0.kind);
    C.FindAfterSet(cs1, c1, c0.kind);
    C.FindAfterSet(cs1, c1, c1.kind);
    C.FindAfterSet(cs2, c2, c0.kind);
    C.FindAfterSet(cs2, c2, c1.kind);
    C.FindAfterSet(cs2, c2, c2.kind);
  }

  /** What ends a reconcile before it has anything to report: a failed read of the binding or of the provider is
      returned as an error and nothing is written, and a binding that is gone is no error. */
  lemma FailedReadsWriteNothing(s: Store, k: Key, env: Env)
    ensures !env.bindingRead ==> Drive(s, k, Start, env) == (s, false)
    ensures env.bindingRead && k !in s.bindings ==> Drive(s, k, Start, env) == (s, true)
    ensures env.bindingRead && k in s.bindings && !env.providerRead ==> Drive(s, k, Start, env) == (s, false)
  {
    var (s1, l1) := Advance(s, k, Start, env);
    assert Drive(s, k, Start, env) == Drive(s1, k, l1, env);
    if l1.HaveBinding? {
      var (s2, l2) := Advance(s1, k, l1, env);
      assert Drive(s1, k, l1, env) == Drive(s2, k, l2, env);
    }
  }

  /** Once both reads go through, and whatever else fails, the status tells exactly how the reconcile went, for this
      generation and with its reason: Ready if the members were resolved and the RBAC step succeeded, GroupNotFound
      if the directory has no such group, Degraded in every other case. Only a Ready changes the summary. An error
      is returned if and only if the reconcile was Degraded or the status write did not succeed. */
  lemma StatusTellsOutcome(s: Store, k: Key, env: Env)
    requires k in s.bindings && env.bindingRead && env.providerRead
    ensures var (s', ok) := Drive(s, k, Start, env);
      var b, known := s.bindings[k], ProviderKnown(s, k);
      var ready := known && env.answer.Members? && RbacStepSucceeds(RbacAt(s, k), Desired(k, b, env.answer.names), env);
      var missing := known && env.answer.NoSuchGroup?;
      Told(s, k, b,
        if ready then Ready else if missing then GroupNotFound else Degraded,
        if ready then SyncSucceeded else if missing then GroupMissing else LDAPUnreachable,
        if ready then SyncSummary(k, env.answer.names, env.now) else b.status.summary,
        env, s', ok)
  {
    var b := s.bindings[k];
    assert Drive(s, k, Start, env) == Drive(s, k, HaveBinding(b), env);
    var (_, l2) := Advance(s, k, HaveBinding(b), env);
    assert Drive(s, k, HaveBinding(b), env) == Drive(s, k, l2, env);
    if l2.Failing? {
      StatusWritten(s, k, l2, env);
    } else {
      var (_, l3) := Advance(s, k, l2, env);
      assert Drive(s, k, l2, env) == Drive(s, k, l3, env);
      if l3.HaveMembers? {
        RbPhaseThenStatus(s, k, b, l3.members, env);
        RbPhaseSuccess(s, k, b, l3.members, env);
        var (s4, l4) := RbPhase(s, k, b, l3.members, env);
        StatusWritten(s4, k, l4, env);
      } else {
        StatusWritten(s, k, l3, env);
      }
    }
  }

  // ---------- Interruption ----------

  /** Take one step per environment and then stop, as a crash would. */
  function Partial(s: Store, k: Key, l: Local, envs: seq<Env>): (Store, Local)
    decreases |envs|
  {
    if envs == [] then (s, l)
    else var (s', l') := Advance(s, k, l, envs[0]); Partial(s', k, l', envs[1..])
  }

  lemma {:induction false} PartialOwnKey(s: Store, k: Key, l: Local, envs: seq<Env>)
    ensures OnlyKeyChanged(s, Partial(s, k, l, envs).0, k)
    decreases |envs|
  {
    if envs != [] {
      var (s', l') := Advance(s, k, l, envs[0]);
      AdvanceOwnKey(s, k, l, envs[0]);
      PartialOwnKey(s', k, l', envs[1..]);
    }
  }

  /** Stop a reconcile at any call, with any faults before that, from any point of the protocol: the next
      error-free reconcile reaches the same role, owners and subjects as one that was never interrupted. */
  lemma RecoversFromInterruption(s: Store, k: Key, l: Local, envs: seq<Env>, members: seq<string>, env: Env)
    requires ProviderKnown(s, k) && Clean(env, members)
    ensures var interrupted := RbacAt(Drive(Partial(s, k, l, envs).0, k, Start, env).0, k);
      var direct := RbacAt(Drive(s, k, Start, env).0, k);
      interrupted.Some? && direct.Some? && Matches(interrupted.value, direct.value)
  {
    var s1 := Partial(s, k, l, envs).0;
    PartialOwnKey(s, k, l, envs);
    Converges(s1, k, members, env);
    Converges(s, k, members, env);
    assert Desired(k, s1.bindings[k], members) == Desired(k, s.bindings[k], members);
  }

  /** The documented promise that an error never removes existing access fails in one case only: the role
      was being replaced, the Delete took effect and the Create did not. */
  lemma AccessLostIff(s: Store, k: Key, env: Env)
    requires k in s.rbs
    ensures k !in Drive(s, k, Start, env).0.rbs <==>
      && ProviderKnown(s, k) && env.bindingRead && env.providerRead && env.answer.Members? && env.rbRead
      && s.rbs[k].content.roleRef != DesiredRole(s.bindings[k].spec.role)
      && (env.delete.LostReply? || (env.delete.NoFault? && env.create.LostRequest?))
  {
    DriveContent(s, k, env);
  }

  /** Such a reconcile exists, and it reports an error. */
  lemma AccessCanBeLost()
    ensures exists s: Store, k: Key, env: Env ::
      k in s.rbs && k !in Drive(s, k, Start, env).0.rbs && !Drive(s, k, Start, env).1
  {
    var k := ClusterWide("admins");
    var b := Binding(0, 2, 1, Spec("ad", "cn=admins", ClusterRoleRefSpec("edit")), EMPTY_STATUS);
    var o := RbacObject(2, 3, Content(RoleRef(RBAC_GROUP, CLUSTER_ROLE_KIND, "view"), UserSubjects(["eve"]), []));
    var s := Store(map[k := b], map[k := o], {"ad"}, 4);
    var env := Env(true, true, Members(["eve"]), true, NoFault, LostRequest, NoFault, NoFault, 0);
    AccessLostIff(s, k, env);
    assert "view" != "edit";
    DriveToFailure(s, k, b, o, env);
  }

  lemma DriveToFailure(s: Store, k: Key, b: Binding, o: RbacObject, env: Env)
    requires ProviderKnown(s, k) && s.bindings[k] == b && k in s.rbs && s.rbs[k] == o
    requires env.bindingRead && env.providerRead && env.answer.Members? && env.rbRead
    requires o.content.roleRef != DesiredRole(b.spec.role) && env.delete.NoFault? && env.create.LostRequest?
    ensures !Drive(s, k, Start, env).1
  {
    var ms := env.answer.names;
    assert Drive(s, k, Start, env) == Drive(s, k, HaveBinding(b), env);
    assert Drive(s, k, HaveBinding(b), env) == Drive(s, k, HaveProvider(b), env);
    assert Drive(s, k, HaveProvider(b), env) == Drive(s, k, HaveMembers(b, ms), env);
    RbPhaseThenStatus(s, k, b, ms, env);
    var (s', l') := RbPhase(s, k, b, ms, env);
    assert l' == Failing(b);
    var (s'', l'') := Advance(s', k, l', env);
    assert Drive(s', k, l', env) == Drive(s'', k, l'', env);
  }

  // ---------- Many bindings ----------

  datatype Request = Request(key: Key, env: Env)

  function RunAll(s: Store, reqs: seq<Request>): Store
    decreases |reqs|
  {
    if reqs == [] then s else RunAll(Drive(s, reqs[0].key, Start, reqs[0].env).0, reqs[1..])
  }

  ghost predicate DistinctKeys(reqs: seq<Request>) {
    forall i, j :: 0 <= i < j < |reqs| ==> reqs[i].key != reqs[j].key
  }

  /** What one request does to its own key, from the store before the whole batch. */
  ghost function Effect(s: Store, r: Request): Option<Content> {
    FinalContent(BindingAt(s, r.key), ProviderKnown(s, r.key), RbacAt(s, r.key), r.key, r.env)
  }

  /** Every request has the effect it would have alone, and every other key keeps its object. */
  lemma {:induction false} BatchIsPointwise(s: Store, reqs: seq<Request>)
    requires DistinctKeys(reqs)
    ensures forall i :: 0 <= i < |reqs| ==> RbacAt(RunAll(s, reqs), reqs[i].key) == Effect(s, reqs[i])
    ensures forall k :: (forall i :: 0 <= i < |reqs| ==> reqs[i].key != k) ==>
      RbacAt(RunAll(s, reqs), k) == RbacAt(s, k)
    decreases |reqs|
  {
    if reqs != [] {
      var r, rest := reqs[0], reqs[1..];
      var s1 := Drive(s, r.key, Start, r.env).0;
      DriveOwnKey(s, r.key, Start, r.env);
      DriveContent(s, r.key, r.env);
      BatchIsPointwise(s1, rest);
      forall i | 0 <= i < |reqs| ensures RbacAt(RunAll(s, reqs), reqs[i].key) == Effect(s, reqs[i]) {
        if i > 0 {
          assert reqs[i] == rest[i - 1];
          assert Effect(s1, reqs[i]) == Effect(s, reqs[i]);
        }
      }
      forall k | (forall i :: 0 <= i < |reqs| ==> reqs[i].key != k) ensures RbacAt(RunAll(s, reqs), k) == RbacAt(s, k) {
        assert forall i :: 0 <= i < |rest| ==> rest[i].key == reqs[i + 1].key;
        assert reqs[0].key != k;
      }
    }
  }

  /** Reconciles of distinct bindings, of both kinds and with any faults, give the same roles, owners and
      subjects in every order. */
  lemma OrderIrrelevant(s: Store, reqs: seq<Request>, perm: seq<Request>, k: Key)
    requires DistinctKeys(reqs) && DistinctKeys(perm)
    requires multiset(reqs) == multiset(perm)
    ensures RbacAt(RunAll(s, reqs), k) == RbacAt(RunAll(s, perm), k)
  {
    BatchIsPointwise(s, reqs);
    BatchIsPointwise(s, perm);
    forall r ensures r in reqs <==> r in perm {
      assert r in reqs <==> r in multiset(reqs);
      assert r in perm <==> r in multiset(perm);
    }
    if i :| 0 <= i < |reqs| && reqs[i].key == k {
      assert reqs[i] in perm;
      var j :| 0 <= j < |perm| && perm[j] == reqs[i];
    } else {
      forall j | 0 <= j < |perm| ensures perm[j].key != k {
        assert perm[j] in reqs;
        var i :| 0 <= i < |reqs| && reqs[i] == perm[j];
      }
    }
  }
}
