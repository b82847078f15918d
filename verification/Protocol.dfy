/** The binding reconcile loop as a state machine: one step per call that leaves the process.
    Both binding kinds run the same machine; the key says which kind a binding is. */
module Protocol {
  import opened Api
  import C = Conditions
  import opened RbacSync

  // ---------- The API server ----------

  /** `clock` supplies uids and resourceVersions; both are never reused. */
  datatype Store = Store(
    bindings: map<Key, Binding>, rbs: map<Key, RbacObject>, providers: set<string>, clock: nat)

  /** A write may fail before it takes effect, or take effect and lose its reply. */
  datatype Fault = NoFault | LostRequest | LostReply

  function CreateRb(s: Store, k: Key, c: Content, f: Fault): (Store, bool) {
    if f.LostRequest? || k in s.rbs then (s, false)
    else (s.(rbs := s.rbs[k := RbacObject(s.clock, s.clock, c)], clock := s.clock + 1), f.NoFault?)
  }

  /** Delete by name: the call carries no uid or resourceVersion precondition. */
  function DeleteRb(s: Store, k: Key, f: Fault): (Store, bool) {
    if f.LostRequest? || k !in s.rbs then (s, false)
    else (s.(rbs := s.rbs - {k}), f.NoFault?)
  }

  /** Rejected on a stale resourceVersion and on any change of roleRef. */
  function UpdateRb(s: Store, k: Key, o: RbacObject, f: Fault): (Store, bool) {
    if k in s.rbs && s.rbs[k].content.roleRef != o.content.roleRef then (s, false) else UpdateAnyRole(s, k, o, f)
  }

  /** The same without the ban on a new roleRef. */
  function UpdateAnyRole(s: Store, k: Key, o: RbacObject, f: Fault): (Store, bool) {
    if f.LostRequest? || k !in s.rbs || s.rbs[k].version != o.version then (s, false)
    else (s.(rbs := s.rbs[k := RbacObject(s.rbs[k].uid, s.clock, o.content)], clock := s.clock + 1), f.NoFault?)
  }

  /** The status subresource: rejected on a stale resourceVersion, and only the status is taken. */
  function UpdateStatus(s: Store, k: Key, b: Binding, f: Fault): (Store, bool) {
    if f.LostRequest? || k !in s.bindings || s.bindings[k].version != b.version then (s, false)
    else
      var stored := s.bindings[k].(status := b.status, version := s.clock);
      (s.(bindings := s.bindings[k := stored], clock := s.clock + 1), f.NoFault?)
  }

  // ---------- Status writes ----------

  /** Three upserts in the order the code makes them. */
  function Set3(cs: seq<Condition>, c0: Condition, c1: Condition, c2: Condition): seq<Condition> {
    C.Set(C.Set(C.Set(cs, c0), c1), c2)
  }

  function MarkReady(k: Key, b: Binding, members: seq<string>, now: nat): Binding {
    b.(status := Status(b.generation,
      Set3(b.status.conditions,
        Condition(Ready, true, SyncSucceeded),
        Condition(Degraded, false, SyncSucceeded),
        Condition(GroupNotFound, false, SyncSucceeded)),
      SyncSummary(k, members, now)))
  }

  function MarkDegraded(b: Binding): Binding {
    b.(status := Status(b.generation,
      Set3(b.status.conditions,
        Condition(Ready, false, LDAPUnreachable),
        Condition(Degraded, true, LDAPUnreachable),
        Condition(GroupNotFound, false, LDAPUnreachable)),
      b.status.summary))
  }

  function MarkGroupNotFound(b: Binding): Binding {
    b.(status := Status(b.generation,
      Set3(b.status.conditions,
        Condition(Ready, false, GroupMissing),
        Condition(GroupNotFound, true, GroupMissing),
        Condition(Degraded, false, GroupMissing)),
      b.status.summary))
  }

  // ---------- The reconcile loop ----------

  /** What building the grouper and querying the directory came to. */
  datatype Answer = GrouperFailed | QueryFailed | NoSuchGroup | Members(names: seq<string>)

  /** What the outside world does to one reconcile: whether each read succeeds, what the directory
      answers, what happens to each write, and the time of day. */
  datatype Env = Env(
    bindingRead: bool, providerRead: bool, answer: Answer, rbRead: bool,
    delete: Fault, create: Fault, update: Fault, status: Fault, now: nat)

  datatype Outcome = Unchanged | Created | Updated | Recreated

  /** Where a reconcile stands, with the local variables it still needs. */
  datatype Local =
    | Start
    | HaveBinding(b: Binding)
    | HaveProvider(b: Binding)
    | HaveMembers(b: Binding, members: seq<string>)
    | Differs(b: Binding, members: seq<string>, existing: RbacObject)
    | Deleted(b: Binding, members: seq<string>)
    | Absent(b: Binding, members: seq<string>)
    | Stale(b: Binding, members: seq<string>, existing: RbacObject)
    | Synced(b: Binding, members: seq<string>, outcome: Outcome)
    | Failing(b: Binding)
    | Missing(b: Binding)
    | Finished(ok: bool)

  function Advance(s: Store, k: Key, l: Local, env: Env): (Store, Local) {
    match l
    case Start =>
      if !env.bindingRead then (s, Finished(false))
      else if k in s.bindings then (s, HaveBinding(s.bindings[k]))
      else (s, Finished(true))
    case HaveBinding(b) =>
      if !env.providerRead then (s, Finished(false))
      else if b.spec.providerRef in s.providers then (s, HaveProvider(b))
      else (s, Failing(b))
    case HaveProvider(b) =>
      (s, match env.answer
          case Members(names) => HaveMembers(b, names)
          case NoSuchGroup => Missing(b)
          case _ => Failing(b))
    case HaveMembers(b, members) =>
      (s, ReadRb(s, k, b, members, env))
    case Differs(b, members, existing) =>
      var (s', ok) := DeleteRb(s, k, env.delete);
      (s', if ok then Deleted(b, members) else Failing(b))
    case Deleted(b, members) =>
      var (s', ok) := CreateRb(s, k, Desired(k, b, members), env.create);
      (s', if ok then Synced(b, members, Recreated) else Failing(b))
    case Absent(b, members) =>
      var (s', ok) := CreateRb(s, k, Desired(k, b, members), env.create);
      (s', if ok then Synced(b, members, Created) else Failing(b))
    case Stale(b, members, existing) =>
      var (s', ok) := UpdateRb(s, k, Patched(k, b, members, existing), env.update);
      (s', if ok then Synced(b, members, Updated) else Failing(b))
    case Synced(b, members, _) =>
      var (s', ok) := UpdateStatus(s, k, MarkReady(k, b, members, env.now), env.status);
      (s', Finished(ok))
    case Failing(b) =>
      var (s', ok) := UpdateStatus(s, k, MarkDegraded(b), env.status);
      (s', Finished(false))
    case Missing(b) =>
      var (s', ok) := UpdateStatus(s, k, MarkGroupNotFound(b), env.status);
      (s', Finished(ok))
    case Finished(_) => (s, l)
  }

  /** The Get that opens reconcileRoleBinding, and the branch it takes on the reply. */
  function ReadRb(s: Store, k: Key, b: Binding, members: seq<string>, env: Env): Local {
    if !env.rbRead then Failing(b)
    else if k !in s.rbs then Absent(b, members)
    else
      var existing, desired := s.rbs[k], Desired(k, b, members);
      if existing.content.roleRef != desired.roleRef then Differs(b, members, existing)
      else if Matches(existing.content, desired) then Synced(b, members, Unchanged)
      else Stale(b, members, existing)
  }

  /** The object sent by Update: what was read, with subjects and owners overwritten. */
  function Patched(k: Key, b: Binding, members: seq<string>, existing: RbacObject): RbacObject {
    var desired := Desired(k, b, members);
    existing.(content := existing.content.(subjects := desired.subjects, owners := desired.owners))
  }

  function Rank(l: Local): nat {
    match l
    case Start => 7
    case HaveBinding(_) => 6
    case HaveProvider(_) => 5
    case HaveMembers(_, _) => 4
    case Differs(_, _, _) => 3
    case Deleted(_, _) => 2
    case Absent(_, _) => 2
    case Stale(_, _, _) => 2
    case Synced(_, _, _) => 1
    case Failing(_) => 1
    case Missing(_) => 1
    case Finished(_) => 0
  }

  /** One reconcile run to its end with nothing else happening. */
  function Drive(s: Store, k: Key, l: Local, env: Env): (Store, bool)
    decreases Rank(l)
  {
    if l.Finished? then (s, l.ok)
    else var (s', l') := Advance(s, k, l, env); Drive(s', k, l', env)
  }

  predicate RbPhaseOver(l: Local) {
    l.Synced? || l.Failing?
  }

  /** reconcileRoleBinding run to its end: from the resolved members to Synced or Failing. */
  function RbPhase(s: Store, k: Key, b: Binding, members: seq<string>, env: Env): (Store, Local) {
    var (s1, l1) := Advance(s, k, HaveMembers(b, members), env);
    if RbPhaseOver(l1) then (s1, l1)
    else
      var (s2, l2) := Advance(s1, k, l1, env);
      if RbPhaseOver(l2) then (s2, l2) else Advance(s2, k, l2, env)
  }

  /** The content stored for k, if any. */
  function RbacAt(s: Store, k: Key): Option<Content> {
    if k in s.rbs then Some(s.rbs[k].content) else None
  }

  function BindingAt(s: Store, k: Key): Option<Binding> {
    if k in s.bindings then Some(s.bindings[k]) else None
  }

  /** No call fails and the directory answers with these names. */
  predicate Clean(env: Env, members: seq<string>) {
    && env.bindingRead && env.providerRead && env.rbRead && env.answer == Members(members)
    && env.delete.NoFault? && env.create.NoFault? && env.update.NoFault? && env.status.NoFault?
  }
}
