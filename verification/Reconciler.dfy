/** The two binding reconcilers as the imperative code they are, proved to be runs of the protocol. */
module Reconciler {
  import opened Api
  import C = Conditions
  import opened RbacSync
  import P = Protocol
  import opened Convergence

  datatype Read<+T> = Got(value: T) | NotFound | ReadError

  /** The API server as the client sees it. The store is only reached through these calls. */
  class ApiServer {
    var bindings: map<Key, Binding>
    var rbs: map<Key, RbacObject>
    var providers: set<string>
    var clock: nat

    function Snapshot(): P.Store
      reads this
    {
      P.Store(bindings, rbs, providers, clock)
    }

    method Put(s: P.Store)
      modifies this
      ensures Snapshot() == s
    {
      bindings, rbs, providers, clock := s.bindings, s.rbs, s.providers, s.clock;
    }

    method GetBinding(k: Key, ok: bool) returns (r: Read<Binding>)
      ensures r == if !ok then ReadError else if k in bindings then Got(bindings[k]) else NotFound
    {
      r := if !ok then ReadError else if k in bindings then Got(bindings[k]) else NotFound;
    }

    method GetProvider(name: string, ok: bool) returns (r: Read<string>)
      ensures r == if !ok then ReadError else if name in providers then Got(name) else NotFound
    {
      r := if !ok then ReadError else if name in providers then Got(name) else NotFound;
    }

    method GetRb(k: Key, ok: bool) returns (r: Read<RbacObject>)
      ensures r == if !ok then ReadError else if k in rbs then Got(rbs[k]) else NotFound
    {
      r := if !ok then ReadError else if k in rbs then Got(rbs[k]) else NotFound;
    }

    method CreateRb(k: Key, c: Content, f: P.Fault) returns (ok: bool)
      modifies this
      ensures (Snapshot(), ok) == P.CreateRb(old(Snapshot()), k, c, f)
    {
      var (s, r) := P.CreateRb(Snapshot(), k, c, f);
      Put(s);
      ok := r;
    }

    method DeleteRb(k: Key, f: P.Fault) returns (ok: bool)
      modifies this
      ensures (Snapshot(), ok) == P.DeleteRb(old(Snapshot()), k, f)
    {
      var (s, r) := P.DeleteRb(Snapshot(), k, f);
      Put(s);
      ok := r;
    }

    method UpdateRb(k: Key, o: RbacObject, f: P.Fault) returns (ok: bool)
      modifies this
      ensures (Snapshot(), ok) == P.UpdateRb(old(Snapshot()), k, o, f)
    {
      var (s, r) := P.UpdateRb(Snapshot(), k, o, f);
      Put(s);
      ok := r;
    }

    method UpdateStatus(k: Key, b: Binding, f: P.Fault) returns (ok: bool)
      modifies this
      ensures (Snapshot(), ok) == P.UpdateStatus(old(Snapshot()), k, b, f)
    {
      var (s, r) := P.UpdateStatus(Snapshot(), k, b, f);
      Put(s);
      ok := r;
    }
  }

  /** The reconciler's own copy of the binding it read, whose status the mark methods overwrite. */
  class BindingCopy {
    const key: Key
    const uid: nat
    const generation: nat
    const version: nat
    const spec: Spec
    var observedGeneration: nat
    var conditions: seq<Condition>
    var memberCount: int
    var membersPreview: seq<string>
    var membersTruncated: bool
    var membersHash: Option<Digest>
    var lastSyncTime: Option<nat>
    var managedRef: Option<string>

    constructor (k: Key, b: Binding)
      ensures key == k && Value() == b
    {
      key, uid, generation, version, spec := k, b.uid, b.generation, b.version, b.spec;
      observedGeneration, conditions := b.status.observedGeneration, b.status.conditions;
      memberCount, membersPreview, membersTruncated :=
        b.status.summary.memberCount, b.status.summary.preview, b.status.summary.truncated;
      membersHash, lastSyncTime, managedRef :=
        b.status.summary.hash, b.status.summary.lastSyncTime, b.status.summary.managedRef;
    }

    function Value(): Binding
      reads this
    {
      Binding(uid, generation, version, spec, Status(observedGeneration, conditions,
        Summary(memberCount, membersPreview, membersTruncated, membersHash, lastSyncTime, managedRef)))
    }

    method SetStatusCondition(c: Condition)
      modifies this`conditions
      ensures conditions == C.Set(old(conditions), c)
    {
      conditions := C.Set(conditions, c);
    }
  }

  class BindingReconciler {
    const api: ApiServer

    constructor (server: ApiServer)
      ensures api == server
    {
      api := server;
    }

    /** Reconcile one key. Nothing else reaches the store meanwhile; the interleaved runs are in module Runs. */
    method Reconcile(k: Key, env: P.Env) returns (ok: bool)
      modifies api
      ensures (api.Snapshot(), ok) == P.Drive(old(api.Snapshot()), k, P.Start, env)
    {
      ghost var s := api.Snapshot();
      var got := api.GetBinding(k, env.bindingRead);
      if !got.Got? {
        return got.NotFound?;
      }
      var binding := new BindingCopy(k, got.value);
      ghost var b := got.value;
      assert P.Drive(s, k, P.Start, env) == P.Drive(s, k, P.HaveBinding(b), env);

      var provider := api.GetProvider(binding.spec.providerRef, env.providerRead);
      if provider.NotFound? {
        FinishFailing(s, k, b, env);
        ok := MarkDegraded(binding, env);
        return;
      } else if provider.ReadError? {
        return false;
      }
      assert P.Drive(s, k, P.HaveBinding(b), env) == P.Drive(s, k, P.HaveProvider(b), env);

      match env.answer
      case NoSuchGroup =>
        FinishMissing(s, k, b, env);
        ok := MarkGroupNotFound(binding, env);
      case GrouperFailed =>
        FinishFailing(s, k, b, env);
        ok := MarkDegraded(binding, env);
      case QueryFailed =>
        FinishFailing(s, k, b, env);
        ok := MarkDegraded(binding, env);
      case Members(members) =>
        var subjects := Subjects(members);
        var desired := Content(DesiredRole(binding.spec.role), subjects, [ControllerRef(k, binding.Value())]);
        var outcome, done := ReconcileRoleBinding(k, desired, env, b, members);
        ghost var s1 := api.Snapshot();
        RbPhaseThenStatus(s, k, b, members, env);
        if !done {
          FinishFailing(s1, k, b, env);
          ok := MarkDegraded(binding, env);
        } else {
          FinishSynced(s1, k, b, members, outcome, env);
          ok := MarkReady(binding, members, env);
        }
    }

    /** reconcileRoleBinding and reconcileClusterRoleBinding. */
    method ReconcileRoleBinding(k: Key, desired: Content, env: P.Env, ghost b: Binding, ghost members: seq<string>)
      returns (outcome: P.Outcome, ok: bool)
      requires desired == Desired(k, b, members)
      modifies api
      ensures (api.Snapshot(), if ok then P.Synced(b, members, outcome) else P.Failing(b))
           == P.RbPhase(old(api.Snapshot()), k, b, members, env)
    {
      ghost var s := api.Snapshot();
      outcome := P.Unchanged;
      var got := api.GetRb(k, env.rbRead);
      if got.NotFound? {
        ok := api.CreateRb(k, desired, env.create);
        return if ok then P.Created else P.Unchanged, ok;
      } else if got.ReadError? {
        return P.Unchanged, false;
      }
      var existing := got.value;

      if existing.content.roleRef != desired.roleRef {
        ok := api.DeleteRb(k, env.delete);
        if !ok {
          return P.Unchanged, false;
        }
        ok := api.CreateRb(k, desired, env.create);
        return if ok then P.Recreated else P.Unchanged, ok;
      }

      var inSync := InSync(existing.content, desired, members);
      if inSync {
        return P.Unchanged, true;
      }

      ghost var was := existing;
      assert P.ReadRb(s, k, b, members, env) == P.Stale(b, members, was);
      existing := existing.(content := existing.content.(subjects := desired.subjects));
      existing := existing.(content := existing.content.(owners := desired.owners));
      assert existing == P.Patched(k, b, members, was);
      ok := api.UpdateRb(k, existing, env.update);
      outcome := if ok then P.Updated else P.Unchanged;
    }

    /** The test that decides whether to write: same subjects in any order, same owners. */
    method InSync(existing: Content, desired: Content, ghost members: seq<string>) returns (same: bool)
      requires desired.subjects == UserSubjects(members) && existing.roleRef == desired.roleRef
      ensures same <==> Matches(existing, desired)
    {
      var equal := SubjectsEqual(existing.subjects, desired.subjects);
      DesiredSubjectsAreExact(existing.subjects, members);
      same := equal && existing.owners == desired.owners;
    }

    method MarkReady(binding: BindingCopy, members: seq<string>, env: P.Env) returns (ok: bool)
      modifies api, binding
      ensures binding.Value() == P.MarkReady(binding.key, old(binding.Value()), members, env.now)
      ensures (api.Snapshot(), ok) == P.UpdateStatus(old(api.Snapshot()), binding.key, binding.Value(), env.status)
    {
      var (preview, truncated) := PreviewMembers(members);
      binding.observedGeneration := binding.generation;
      binding.lastSyncTime := Some(env.now);
      binding.memberCount := MemberCount(members);
      binding.membersPreview := preview;
      binding.membersTruncated := truncated;
      binding.membersHash := Some(MembersHash(members));
      binding.managedRef := Some(binding.key.name);
      binding.SetStatusCondition(Condition(Ready, true, SyncSucceeded));
      binding.SetStatusCondition(Condition(Degraded, false, SyncSucceeded));
      binding.SetStatusCondition(Condition(GroupNotFound, false, SyncSucceeded));
      ok := api.UpdateStatus(binding.key, binding.Value(), env.status);
    }

    /** The cause is always returned as an error. */
    method MarkDegraded(binding: BindingCopy, env: P.Env) returns (ok: bool)
      modifies api, binding
      ensures binding.Value() == P.MarkDegraded(old(binding.Value()))
      ensures api.Snapshot() == P.UpdateStatus(old(api.Snapshot()), binding.key, binding.Value(), env.status).0 && !ok
    {
      binding.observedGeneration := binding.generation;
      binding.SetStatusCondition(Condition(Ready, false, LDAPUnreachable));
      binding.SetStatusCondition(Condition(Degraded, true, LDAPUnreachable));
      binding.SetStatusCondition(Condition(GroupNotFound, false, LDAPUnreachable));
      var _ := api.UpdateStatus(binding.key, binding.Value(), env.status);
      ok := false;
    }

    method MarkGroupNotFound(binding: BindingCopy, env: P.Env) returns (ok: bool)
      modifies api, binding
      ensures binding.Value() == P.MarkGroupNotFound(old(binding.Value()))
      ensures (api.Snapshot(), ok) == P.UpdateStatus(old(api.Snapshot()), binding.key, binding.Value(), env.status)
    {
      binding.observedGeneration := binding.generation;
      binding.SetStatusCondition(Condition(Ready, false, GroupMissing));
      binding.SetStatusCondition(Condition(GroupNotFound, true, GroupMissing));
      binding.SetStatusCondition(Condition(Degraded, false, GroupMissing));
      ok := api.UpdateStatus(binding.key, binding.Value(), env.status);
    }
  }

  // ---------- The last step of a reconcile, unfolded ----------

  lemma FinishFailing(s: P.Store, k: Key, b: Binding, env: P.Env)
    ensures P.Drive(s, k, P.Failing(b), env) == (P.UpdateStatus(s, k, P.MarkDegraded(b), env.status).0, false)
  {
    var (s', l') := P.Advance(s, k, P.Failing(b), env);
    assert P.Drive(s, k, P.Failing(b), env) == P.Drive(s', k, l', env);
  }

  lemma FinishMissing(s: P.Store, k: Key, b: Binding, env: P.Env)
    ensures P.Drive(s, k, P.Missing(b), env) == P.UpdateStatus(s, k, P.MarkGroupNotFound(b), env.status)
  {
    var (s', l') := P.Advance(s, k, P.Missing(b), env);
    assert P.Drive(s, k, P.Missing(b), env) == P.Drive(s', k, l', env);
  }

  lemma FinishSynced(s: P.Store, k: Key, b: Binding, members: seq<string>, o: P.Outcome, env: P.Env)
    ensures P.Drive(s, k, P.Synced(b, members, o), env)
         == P.UpdateStatus(s, k, P.MarkReady(k, b, members, env.now), env.status)
  {
    var (s', l') := P.Advance(s, k, P.Synced(b, members, o), env);
    assert P.Drive(s, k, P.Synced(b, members, o), env) == P.Drive(s', k, l', env);
  }
}
