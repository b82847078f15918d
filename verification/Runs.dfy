/** Whole runs: reconciles of any number of bindings interleaved call by call with each other, with edits,
    deletions and re-creations of bindings, garbage collection, edits of the managed objects by others,
    API failures and crashes. The work queue hands a key to one worker at a time. */
module Runs {
  import opened Api
  import C = Conditions
  import opened Ordering
  import opened RbacSync
  import opened Protocol
  import opened Convergence

  datatype State = State(store: Store, workers: map<Key, Local>)

  datatype Label =
    | Begin(key: Key)
    | Work(key: Key, env: Env)
    | Crash(key: Key)
    | CreateBinding(key: Key, spec: Spec)
    | EditSpec(key: Key, spec: Spec)
    | DeleteBinding(key: Key)
    | Drift(key: Key, content: Option<Content>)
    | Collect(key: Key)
    | SetProviders(names: set<string>)

  ghost predicate UidLive(s: Store, uid: nat) {
    exists k :: k in s.bindings && s.bindings[k].uid == uid
  }

  /** The collector may remove an object that has owners, none of which is a live binding. */
  ghost predicate Collectable(s: Store, k: Key) {
    k in s.rbs && s.rbs[k].content.owners != [] &&
    forall o :: o in s.rbs[k].content.owners ==> !UidLive(s, o.uid)
  }

  /** Somebody else creates, updates or deletes a managed object, under the API server's rules. */
  function DriftStore(s: Store, k: Key, content: Option<Content>): Store {
    if content.None? then DeleteRb(s, k, NoFault).0
    else if k in s.rbs then UpdateRb(s, k, s.rbs[k].(content := content.value), NoFault).0
    else CreateRb(s, k, content.value, NoFault).0
  }

  function EditStore(s: Store, k: Key, spec: Spec): Store {
    if k !in s.bindings || s.bindings[k].spec == spec then s
    else
      var b := s.bindings[k];
      s.(bindings := s.bindings[k := b.(spec := spec, generation := b.generation + 1, version := s.clock)],
         clock := s.clock + 1)
  }

  /** A label that is not enabled leaves the state as it is. */
  ghost function Next(st: State, l: Label): State {
    var s := st.store;
    match l
    case Begin(k) => if k in st.workers then st else st.(workers := st.workers[k := Start])
    case Work(k, env) =>
      if k !in st.workers then st
      else
        var (s', p) := Advance(s, k, st.workers[k], env);
        State(s', if p.Finished? then st.workers - {k} else st.workers[k := p])
    case Crash(k) => st.(workers := st.workers - {k})
    case CreateBinding(k, spec) =>
      if k in s.bindings then st
      else
        var b := Binding(s.clock, 1, s.clock, spec, EMPTY_STATUS);
        st.(store := s.(bindings := s.bindings[k := b], clock := s.clock + 1))
    case EditSpec(k, spec) => st.(store := EditStore(s, k, spec))
    case DeleteBinding(k) => st.(store := s.(bindings := s.bindings - {k}))
    case Drift(k, content) => st.(store := DriftStore(s, k, content))
    case Collect(k) => if Collectable(s, k) then st.(store := s.(rbs := s.rbs - {k})) else st
    case SetProviders(names) => st.(store := s.(providers := names))
  }

  ghost function Exec(st: State, ls: seq<Label>): State
    decreases |ls|
  {
    if ls == [] then st else Next(Exec(st, ls[..|ls| - 1]), ls[|ls| - 1])
  }

  /** A fresh cluster: bindings never synced, no reconcile in flight, any managed objects and providers. */
  ghost predicate Init(st: State) {
    && st.workers == map[]
    && (forall k :: k in st.store.bindings ==>
          var b := st.store.bindings[k];
          b.status == EMPTY_STATUS && b.uid < st.store.clock && b.version < st.store.clock && b.generation >= 1)
    && (forall k :: k in st.store.rbs ==>
          st.store.rbs[k].uid < st.store.clock && st.store.rbs[k].version < st.store.clock)
  }

  predicate ReadyTrue(b: Binding) {
    C.IsTrue(b.status.conditions, Ready)
  }

  /** Ready=True with observedGeneration equal to generation. */
  predicate ReadyCurrent(b: Binding) {
    ReadyTrue(b) && b.status.observedGeneration == b.generation
  }

  // ---------- Versions ----------

  predicate Carries(l: Local) {
    !l.Start? && !l.Finished?
  }

  /** What a worker carries is no newer than the stored binding, and identical if the versions agree. */
  ghost predicate CopyOk(b: Binding, cur: Binding) {
    && (cur.version == b.version ==> cur == b)
    && (cur.uid == b.uid ==> b.generation <= cur.generation)
    && (cur.uid == b.uid && cur.generation == b.generation ==> cur.spec == b.spec)
  }

  ghost predicate StoreVersionsOk(s: Store) {
    && (forall k :: k in s.bindings ==>
          && s.bindings[k].uid < s.clock && s.bindings[k].version < s.clock
          && s.bindings[k].status.observedGeneration <= s.bindings[k].generation)
    && (forall k :: k in s.rbs ==> s.rbs[k].uid < s.clock && s.rbs[k].version < s.clock)
  }

  ghost predicate WorkersOk(st: State) {
    && (forall k :: k in st.workers ==> !st.workers[k].Finished?)
    && (forall k :: k in st.workers && Carries(st.workers[k]) ==>
          st.workers[k].b.version < st.store.clock && st.workers[k].b.uid < st.store.clock)
  }

  /** resourceVersions identify what was read. */
  ghost predicate CopiesOk(st: State) {
    forall k :: k in st.workers && Carries(st.workers[k]) && k in st.store.bindings ==>
      CopyOk(st.workers[k].b, st.store.bindings[k])
  }

  ghost predicate VersionsOk(st: State) {
    StoreVersionsOk(st.store) && WorkersOk(st) && CopiesOk(st)
  }

  /** The status a persisted write leaves is one of the three marks, applied to what was read. */
  ghost predicate Marked(k: Key, l: Local, now: nat, status: Status) {
    || (l.Synced? && status == MarkReady(k, l.b, l.members, now).status)
    || (l.Failing? && status == MarkDegraded(l.b).status)
    || (l.Missing? && status == MarkGroupNotFound(l.b).status)
  }

  /** What one step of a reconcile can do, without saying which step it is. */
  ghost predicate StepShape(s: Store, k: Key, l: Local, now: nat, s': Store, l': Local) {
    && OnlyKeyChanged(s, s', k) && s.clock <= s'.clock
    && (k in s'.rbs ==>
          && (s'.rbs[k].uid < s'.clock || (k in s.rbs && s'.rbs[k].uid == s.rbs[k].uid))
          && (s'.rbs[k].version < s'.clock || (k in s.rbs && s'.rbs[k] == s.rbs[k])))
    && (Carries(l') ==>
          || (Carries(l) && l'.b == l.b && s'.bindings == s.bindings)
          || (l.Start? && s' == s && k in s.bindings && l'.b == s.bindings[k]))
    && (k in s.bindings && s'.bindings[k] != s.bindings[k] ==>
          && Carries(l) && l'.Finished? && s.bindings[k].version == l.b.version
          && s'.bindings[k].version == s.clock < s'.clock
          && s'.bindings[k].status.observedGeneration == l.b.generation
          && Marked(k, l, now, s'.bindings[k].status))
  }

  lemma AdvanceShape(s: Store, k: Key, l: Local, env: Env)
    ensures StepShape(s, k, l, env.now, Advance(s, k, l, env).0, Advance(s, k, l, env).1)
  {
    AdvanceOwnKey(s, k, l, env);
  }

  ghost function AfterWork(st: State, k: Key, s': Store, p: Local): State {
    State(s', if p.Finished? then st.workers - {k} else st.workers[k := p])
  }

  lemma StoreVersionsWork(s: Store, k: Key, l: Local, now: nat, s': Store, p: Local)
    requires StoreVersionsOk(s) && StepShape(s, k, l, now, s', p)
    requires Carries(l) && k in s.bindings ==> CopyOk(l.b, s.bindings[k])
    ensures StoreVersionsOk(s')
  {
    forall j | j in s'.bindings
      ensures s'.bindings[j].uid < s'.clock && s'.bindings[j].version < s'.clock
      ensures s'.bindings[j].status.observedGeneration <= s'.bindings[j].generation
    {
      assert BindingAt(s', j).Some?;
      if j != k {
        assert BindingAt(s', j) == BindingAt(s, j);
      }
    }
  }

  lemma WorkersWork(st: State, k: Key, now: nat, s': Store, p: Local)
    requires StoreVersionsOk(st.store) && WorkersOk(st) && k in st.workers
    requires StepShape(st.store, k, st.workers[k], now, s', p)
    ensures WorkersOk(AfterWork(st, k, s', p))
  {
  }

  lemma CopiesWork(st: State, k: Key, now: nat, s': Store, p: Local)
    requires StoreVersionsOk(st.store) && CopiesOk(st) && k in st.workers
    requires StepShape(st.store, k, st.workers[k], now, s', p)
    ensures CopiesOk(AfterWork(st, k, s', p))
  {
    var nxt := AfterWork(st, k, s', p);
    forall j | j in nxt.workers && Carries(nxt.workers[j]) && j in s'.bindings
      ensures CopyOk(nxt.workers[j].b, s'.bindings[j])
    {
      if j != k {
        assert BindingAt(s', j) == BindingAt(st.store, j);
      }
    }
  }

  lemma VersionsWork(st: State, k: Key, now: nat, s': Store, p: Local)
    requires VersionsOk(st) && k in st.workers && StepShape(st.store, k, st.workers[k], now, s', p)
    ensures VersionsOk(AfterWork(st, k, s', p))
  {
    StoreVersionsWork(st.store, k, st.workers[k], now, s', p);
    WorkersWork(st, k, now, s', p);
    CopiesWork(st, k, now, s', p);
  }

  lemma VersionsDrift(st: State, k: Key, content: Option<Content>)
    requires VersionsOk(st)
    ensures VersionsOk(Next(st, Drift(k, content)))
  {
  }

  lemma VersionsBinding(st: State, l: Label)
    requires VersionsOk(st) && (l.CreateBinding? || l.EditSpec? || l.DeleteBinding?)
    ensures VersionsOk(Next(st, l))
  {
  }

  lemma VersionsOther(st: State, l: Label)
    requires VersionsOk(st) && (l.Begin? || l.Crash? || l.Collect? || l.SetProviders?)
    ensures VersionsOk(Next(st, l))
  {
  }

  lemma VersionsStep(st: State, l: Label)
    requires VersionsOk(st)
    ensures VersionsOk(Next(st, l))
  {
    if l.Work? {
      if l.key in st.workers {
        var (s', p) := Advance(st.store, l.key, st.workers[l.key], l.env);
        AdvanceShape(st.store, l.key, st.workers[l.key], l.env);
        VersionsWork(st, l.key, l.env.now, s', p);
        assert Next(st, l) == AfterWork(st, l.key, s', p);
      }
    } else if l.Drift? {
      VersionsDrift(st, l.key, l.content);
    } else if l.CreateBinding? || l.EditSpec? || l.DeleteBinding? {
      VersionsBinding(st, l);
    } else {
      VersionsOther(st, l);
    }
  }

  lemma {:induction false} VersionsAlways(st: State, ls: seq<Label>)
    requires Init(st)
    ensures VersionsOk(Exec(st, ls))
    decreases |ls|
  {
    if ls != [] {
      VersionsAlways(st, ls[..|ls| - 1]);
      VersionsStep(Exec(st, ls[..|ls| - 1]), ls[|ls| - 1]);
    }
  }

  /** observedGeneration never exceeds generation. */
  lemma ObservedNeverAhead(st: State, ls: seq<Label>, k: Key)
    requires Init(st) && k in Exec(st, ls).store.bindings
    ensures var b := Exec(st, ls).store.bindings[k]; b.status.observedGeneration <= b.generation
  {
    VersionsAlways(st, ls);
  }

  // ---------- Conditions ----------

  /** Exactly one of the three types is true, all three are present, none twice; or there are none yet. */
  ghost predicate ConditionsOk(cs: seq<Condition>) {
    && C.UniqueTypes(cs)
    && (cs == [] || (
        && (forall t: ConditionType :: C.Find(cs, t).Some?)
        && (exists t: ConditionType :: C.IsTrue(cs, t) && forall u: ConditionType :: C.IsTrue(cs, u) ==> u == t)))
  }

  lemma Set3Ok(cs: seq<Condition>, c0: Condition, c1: Condition, c2: Condition)
    requires C.UniqueTypes(cs)
    requires c0.kind != c1.kind && c0.kind != c2.kind && c1.kind != c2.kind
    ensures C.UniqueTypes(Set3(cs, c0, c1, c2))
    ensures forall c :: c in [c0, c1, c2] ==> C.Find(Set3(cs, c0, c1, c2), c.kind) == Some(c)
  {
    C.SetKeepsUnique(cs, c0);
    C.SetKeepsUnique(C.Set(cs, c0), c1);
    C.SetKeepsUnique(C.Set(C.Set(cs, c0), c1), c2);
    FindAfterThree(cs, c0, c1, c2);
  }

  lemma MarksSetConditions(k: Key, b: Binding, members: seq<string>, now: nat)
    requires C.UniqueTypes(b.status.conditions)
    ensures ConditionsOk(MarkReady(k, b, members, now).status.conditions) && ReadyTrue(MarkReady(k, b, members, now))
    ensures ConditionsOk(MarkDegraded(b).status.conditions) && !ReadyTrue(MarkDegraded(b))
    ensures ConditionsOk(MarkGroupNotFound(b).status.conditions) && !ReadyTrue(MarkGroupNotFound(b))
  {
    var cs := b.status.conditions;
    var r := MarkReady(k, b, members, now).status.conditions;
    Set3Ok(cs, Condition(Ready, true, SyncSucceeded), Condition(Degraded, false, SyncSucceeded),
           Condition(GroupNotFound, false, SyncSucceeded));
    assert C.IsTrue(r, Ready) && !C.IsTrue(r, Degraded) && !C.IsTrue(r, GroupNotFound);
    var d := MarkDegraded(b).status.conditions;
    Set3Ok(cs, Condition(Ready, false, LDAPUnreachable), Condition(Degraded, true, LDAPUnreachable),
           Condition(GroupNotFound, false, LDAPUnreachable));
    assert !C.IsTrue(d, Ready) && C.IsTrue(d, Degraded) && !C.IsTrue(d, GroupNotFound);
    var n := MarkGroupNotFound(b).status.conditions;
    Set3Ok(cs, Condition(Ready, false, GroupMissing), Condition(GroupNotFound, true, GroupMissing),
           Condition(Degraded, false, GroupMissing));
    assert !C.IsTrue(n, Ready) && !C.IsTrue(n, Degraded) && C.IsTrue(n, GroupNotFound);
    OneTrue(r, Ready);
    OneTrue(d, Degraded);
    OneTrue(n, GroupNotFound);
  }

  lemma OneTrue(cs: seq<Condition>, t: ConditionType)
    requires C.UniqueTypes(cs) && C.IsTrue(cs, t) && forall u: ConditionType :: u != t ==> !C.IsTrue(cs, u)
    requires C.Find(cs, Ready).Some? && C.Find(cs, Degraded).Some? && C.Find(cs, GroupNotFound).Some?
    ensures ConditionsOk(cs)
  {
    forall u: ConditionType ensures C.Find(cs, u).Some? {
      match u case Ready => case Degraded => case GroupNotFound =>
    }
  }

  ghost predicate AllConditionsOk(st: State) {
    && (forall k :: k in st.store.bindings ==> ConditionsOk(st.store.bindings[k].status.conditions))
    && (forall k :: k in st.workers && Carries(st.workers[k]) ==> ConditionsOk(st.workers[k].b.status.conditions))
  }

  lemma MarkedConditions(k: Key, l: Local, now: nat, status: Status)
    requires Carries(l) && C.UniqueTypes(l.b.status.conditions) && Marked(k, l, now, status)
    ensures ConditionsOk(status.conditions) && (C.IsTrue(status.conditions, Ready) <==> l.Synced?)
  {
    MarksSetConditions(k, l.b, if l.Synced? then l.members else [], now);
  }

  lemma ConditionsWork(st: State, k: Key, now: nat, s': Store, p: Local)
    requires AllConditionsOk(st) && k in st.workers && StepShape(st.store, k, st.workers[k], now, s', p)
    ensures AllConditionsOk(AfterWork(st, k, s', p))
  {
    forall k' | k' in s'.bindings ensures ConditionsOk(s'.bindings[k'].status.conditions) {
      assert BindingAt(s', k').Some?;
      if k' != k {
        assert BindingAt(s', k') == BindingAt(st.store, k');
      } else if s'.bindings[k] != st.store.bindings[k] {
        MarkedConditions(k, st.workers[k], now, s'.bindings[k].status);
      }
    }
  }

  lemma ConditionsOther(st: State, l: Label)
    requires AllConditionsOk(st) && !l.Work?
    ensures AllConditionsOk(Next(st, l))
  {
  }

  lemma ConditionsStep(st: State, l: Label)
    requires AllConditionsOk(st)
    ensures AllConditionsOk(Next(st, l))
  {
    if l.Work? {
      if l.key in st.workers {
        var (s', p) := Advance(st.store, l.key, st.workers[l.key], l.env);
        AdvanceShape(st.store, l.key, st.workers[l.key], l.env);
        ConditionsWork(st, l.key, l.env.now, s', p);
        assert Next(st, l) == AfterWork(st, l.key, s', p);
      }
    } else {
      ConditionsOther(st, l);
    }
  }

  /** In every reachable state the stored condition types are unique and, once any is set, exactly one of
      Ready, Degraded and GroupNotFound is true. */
  lemma {:induction false} ConditionsAlways(st: State, ls: seq<Label>)
    requires Init(st)
    ensures AllConditionsOk(Exec(st, ls))
    decreases |ls|
  {
    if ls != [] {
      ConditionsAlways(st, ls[..|ls| - 1]);
      ConditionsStep(Exec(st, ls[..|ls| - 1]), ls[|ls| - 1]);
    }
  }

  // ---------- The reconcile behind a status ----------

  /** The state after the first i labels. */
  ghost function At(st: State, ls: seq<Label>, i: nat): State
    requires i <= |ls|
  {
    Exec(st, ls[..i])
  }

  ghost function WorkerAt(st: State, ls: seq<Label>, i: nat, k: Key): Option<Local>
    requires i <= |ls|
  {
    var workers := At(st, ls, i).workers;
    if k in workers then Some(workers[k]) else None
  }

  ghost predicate StoredAt(st: State, ls: seq<Label>, i: nat, k: Key, b: Binding)
    requires i <= |ls|
  {
    BindingAt(At(st, ls, i).store, k) == Some(b)
  }

  ghost predicate ManagedAt(st: State, ls: seq<Label>, i: nat, k: Key, b: Binding, members: seq<string>)
    requires i <= |ls|
  {
    var c := RbacAt(At(st, ls, i).store, k);
    c.Some? && Matches(c.value, Desired(k, b, members))
  }

  predicate IsStep(ls: seq<Label>, i: nat, k: Key)
    requires i < |ls|
  {
    ls[i].Work? && ls[i].key == k
  }

  predicate WorksOn(l: Local, b: Binding) {
    Carries(l) && l.b == b
  }

  /** At label r the reconcile of k reads the stored binding b. */
  ghost predicate ReadsAt(st: State, ls: seq<Label>, r: nat, k: Key, b: Binding)
    requires r < |ls|
  {
    && IsStep(ls, r, k) && WorkerAt(st, ls, r, k) == Some(Start)
    && StoredAt(st, ls, r, k, b) && WorkerAt(st, ls, r + 1, k) == Some(HaveBinding(b))
  }

  /** At label a the reconcile of k queries the directory for b and is answered with these members. */
  ghost predicate AnsweredAt(st: State, ls: seq<Label>, a: nat, k: Key, b: Binding, members: seq<string>)
    requires a < |ls|
  {
    IsStep(ls, a, k) && WorkerAt(st, ls, a, k) == Some(HaveProvider(b)) && ls[a].env.answer == Members(members)
  }

  predicate IsSynced(l: Option<Local>, b: Binding, members: seq<string>) {
    l.Some? && l.value.Synced? && l.value.b == b && l.value.members == members
  }

  /** Label m ends the RBAC step of the reconcile of k, and the object is then exactly what BuildRoleBinding asks
      for b and these members. */
  ghost predicate SyncsAt(st: State, ls: seq<Label>, m: nat, k: Key, b: Binding, members: seq<string>)
    requires m < |ls|
  {
    && IsStep(ls, m, k) && WorkerAt(st, ls, m, k).Some? && !WorkerAt(st, ls, m, k).value.Synced?
    && IsSynced(WorkerAt(st, ls, m + 1, k), b, members) && ManagedAt(st, ls, m + 1, k, b, members)
  }

  /** The label is a markReady of k that takes effect. */
  predicate PersistsSync(st: State, l: Label, k: Key) {
    && l.Work? && l.key == k && k in st.workers && st.workers[k].Synced? && !l.env.status.LostRequest?
    && k in st.store.bindings && st.store.bindings[k].version == st.workers[k].b.version
  }

  /** Label w is a markReady that takes effect, over the very binding that had been read. */
  ghost predicate MarksAt(st: State, ls: seq<Label>, w: nat, k: Key, b: Binding, members: seq<string>)
    requires w < |ls|
  {
    && PersistsSync(At(st, ls, w), ls[w], k) && IsSynced(WorkerAt(st, ls, w, k), b, members)
    && StoredAt(st, ls, w, k, b)
  }

  /** In all these states one and the same reconcile of k is in flight, working on b: it neither ended nor
      crashed, and no other began. */
  ghost predicate OneFlight(st: State, ls: seq<Label>, k: Key, b: Binding, from: nat, to: nat)
    requires to <= |ls|
  {
    forall i: nat :: from <= i <= to ==> WorkerAt(st, ls, i, k).Some? && WorksOn(WorkerAt(st, ls, i, k).value, b)
  }

  /** The reconcile in flight at the end of the run read b at r. */
  ghost predicate HasRead(st: State, ls: seq<Label>, k: Key, b: Binding, r: nat) {
    r < |ls| && ReadsAt(st, ls, r, k, b) && OneFlight(st, ls, k, b, r + 1, |ls|)
  }

  ghost predicate WasRead(st: State, ls: seq<Label>, k: Key, b: Binding) {
    exists r: nat :: HasRead(st, ls, k, b, r)
  }

  /** It read b at r and was answered with these members at a. */
  ghost predicate HasResolved(st: State, ls: seq<Label>, k: Key, b: Binding, members: seq<string>, r: nat, a: nat) {
    HasRead(st, ls, k, b, r) && r < a < |ls| && AnsweredAt(st, ls, a, k, b, members)
  }

  ghost predicate WasResolved(st: State, ls: seq<Label>, k: Key, b: Binding, members: seq<string>) {
    exists r: nat, a: nat :: HasResolved(st, ls, k, b, members, r, a)
  }

  /** And at m it left, or found, exactly the managed object for b and these members. */
  ghost predicate HasSynced(st: State, ls: seq<Label>, k: Key, b: Binding, members: seq<string>,
                            r: nat, a: nat, m: nat)
  {
    HasResolved(st, ls, k, b, members, r, a) && a < m < |ls| && SyncsAt(st, ls, m, k, b, members)
  }

  ghost predicate WasSynced(st: State, ls: seq<Label>, k: Key, b: Binding, members: seq<string>) {
    exists r: nat, a: nat, m: nat :: HasSynced(st, ls, k, b, members, r, a, m)
  }

  /** One and the same reconcile of k read b at r, was answered with these members at a, had the managed object
      right at m, and wrote markReady at w. */
  ghost predicate Reconciled(st: State, ls: seq<Label>, k: Key, b: Binding, members: seq<string>,
                             r: nat, a: nat, m: nat, w: nat)
  {
    && r < a < m < w < |ls|
    && ReadsAt(st, ls, r, k, b)
    && AnsweredAt(st, ls, a, k, b, members)
    && SyncsAt(st, ls, m, k, b, members)
    && MarksAt(st, ls, w, k, b, members)
    && OneFlight(st, ls, k, b, r + 1, w)
  }

  /** The label at which this run last persisted a markReady for the binding now stored under k, if any. */
  ghost function LastSync(st: State, ls: seq<Label>, k: Key): Option<nat>
    decreases |ls|
  {
    if ls == [] then None
    else
      var front, l := ls[..|ls| - 1], ls[|ls| - 1];
      if PersistsSync(Exec(st, front), l, k) then Some(|front|)
      else if k !in Exec(st, ls).store.bindings then None
      else LastSync(st, front, k)
  }

  /** What was read is about this object; and a true Ready condition speaks about the generation that was read
      and, while that is current, about the stored spec. */
  ghost predicate SpeaksOf(b: Binding, cur: Binding) {
    && b.uid == cur.uid && b.generation <= cur.generation
    && (b.generation == cur.generation ==> b.spec == cur.spec)
    && (ReadyTrue(cur) ==> b.generation == cur.status.observedGeneration)
  }

  ghost predicate Explained(st: State, ls: seq<Label>, k: Key, cur: Binding, w: nat) {
    exists b: Binding, members: seq<string>, r: nat, a: nat, m: nat ::
      && Reconciled(st, ls, k, b, members, r, a, m, w) && SpeaksOf(b, cur)
      && cur.status.summary == SyncSummary(k, members, ls[w].env.now)
  }

  /** Without a persisted markReady there is no summary and no Ready; otherwise the last one explains both. */
  ghost predicate StatusExplained(st: State, ls: seq<Label>, k: Key, cur: Binding) {
    match LastSync(st, ls, k)
    case None => cur.status.summary == NO_SUMMARY && !ReadyTrue(cur)
    case Some(w) => Explained(st, ls, k, cur, w)
  }

  ghost predicate PastResolution(l: Local) {
    l.HaveMembers? || l.Differs? || l.Deleted? || l.Absent? || l.Stale? || l.Synced?
  }

  /** What the run must have done for a worker to stand where it stands. */
  ghost predicate WorkerExplained(st: State, ls: seq<Label>, k: Key, p: Local) {
    && (Carries(p) ==> WasRead(st, ls, k, p.b))
    && (PastResolution(p) ==> WasResolved(st, ls, k, p.b, p.members))
    && (p.Stale? ==> p.existing.content.roleRef == DesiredRole(p.b.spec.role))
    && (p.Synced? ==> WasSynced(st, ls, k, p.b, p.members))
  }

  ghost predicate History(st: State, ls: seq<Label>) {
    var cur := Exec(st, ls);
    && (forall k :: k in cur.workers ==> WorkerExplained(st, ls, k, cur.workers[k]))
    && (forall k :: k in cur.store.bindings ==> StatusExplained(st, ls, k, cur.store.bindings[k]))
  }

  lemma PrefixAt(st: State, ls: seq<Label>, l: Label, i: nat)
    requires i <= |ls|
    ensures At(st, ls + [l], i) == At(st, ls, i)
  {
    assert (ls + [l])[..i] == ls[..i];
  }

  lemma PrefixWorkers(st: State, ls: seq<Label>, l: Label, k: Key)
    ensures forall i: nat :: i <= |ls| ==> WorkerAt(st, ls + [l], i, k) == WorkerAt(st, ls, i, k)
  {
    forall i: nat | i <= |ls| ensures WorkerAt(st, ls + [l], i, k) == WorkerAt(st, ls, i, k) {
      PrefixAt(st, ls, l, i);
    }
  }

  lemma LastAt(st: State, ls: seq<Label>)
    ensures At(st, ls, |ls|) == Exec(st, ls)
  {
    assert ls[..|ls|] == ls;
  }

  lemma ExecSnoc(st: State, ls: seq<Label>, l: Label)
    ensures Exec(st, ls + [l]) == Next(Exec(st, ls), l)
  {
    var all := ls + [l];
    assert all[..|all| - 1] == ls;
  }

  /** What happened before the last label does not depend on it. */
  lemma EventsGrow(st: State, ls: seq<Label>, l: Label, k: Key, b: Binding, members: seq<string>, i: nat)
    requires i < |ls|
    ensures ReadsAt(st, ls + [l], i, k, b) <==> ReadsAt(st, ls, i, k, b)
    ensures AnsweredAt(st, ls + [l], i, k, b, members) <==> AnsweredAt(st, ls, i, k, b, members)
    ensures SyncsAt(st, ls + [l], i, k, b, members) <==> SyncsAt(st, ls, i, k, b, members)
    ensures MarksAt(st, ls + [l], i, k, b, members) <==> MarksAt(st, ls, i, k, b, members)
  {
    PrefixAt(st, ls, l, i);
    PrefixAt(st, ls, l, i + 1);
  }

  lemma FlightGrows(st: State, ls: seq<Label>, l: Label, k: Key, b: Binding, from: nat)
    requires OneFlight(st, ls, k, b, from, |ls|)
    requires k in Exec(st, ls + [l]).workers && WorksOn(Exec(st, ls + [l]).workers[k], b)
    ensures OneFlight(st, ls + [l], k, b, from, |ls| + 1)
  {
    PrefixWorkers(st, ls, l, k);
    LastAt(st, ls + [l]);
  }

  /** A reconcile still in flight after the label has the same past. */
  lemma ReadGrows(st: State, ls: seq<Label>, l: Label, k: Key, b: Binding, r: nat)
    requires HasRead(st, ls, k, b, r)
    requires k in Exec(st, ls + [l]).workers && WorksOn(Exec(st, ls + [l]).workers[k], b)
    ensures HasRead(st, ls + [l], k, b, r)
  {
    EventsGrow(st, ls, l, k, b, [], r);
    FlightGrows(st, ls, l, k, b, r + 1);
  }

  lemma ResolvedGrows(st: State, ls: seq<Label>, l: Label, k: Key, b: Binding, members: seq<string>)
    requires WasResolved(st, ls, k, b, members)
    requires k in Exec(st, ls + [l]).workers && WorksOn(Exec(st, ls + [l]).workers[k], b)
    ensures WasResolved(st, ls + [l], k, b, members)
  {
    var r: nat, a: nat :| HasResolved(st, ls, k, b, members, r, a);
    ReadGrows(st, ls, l, k, b, r);
    EventsGrow(st, ls, l, k, b, members, a);
    assert HasResolved(st, ls + [l], k, b, members, r, a);
  }

  lemma SyncedGrows(st: State, ls: seq<Label>, l: Label, k: Key, b: Binding, members: seq<string>)
    requires WasSynced(st, ls, k, b, members)
    requires k in Exec(st, ls + [l]).workers && WorksOn(Exec(st, ls + [l]).workers[k], b)
    ensures WasSynced(st, ls + [l], k, b, members)
  {
    var r: nat, a: nat, m: nat :| HasSynced(st, ls, k, b, members, r, a, m);
    ReadGrows(st, ls, l, k, b, r);
    EventsGrow(st, ls, l, k, b, members, a);
    EventsGrow(st, ls, l, k, b, members, m);
    assert HasSynced(st, ls + [l], k, b, members, r, a, m);
  }

  lemma WorkerGrows(st: State, ls: seq<Label>, l: Label, k: Key, p: Local)
    requires WorkerExplained(st, ls, k, p) && k in Exec(st, ls + [l]).workers && Exec(st, ls + [l]).workers[k] == p
    ensures WorkerExplained(st, ls + [l], k, p)
  {
    if Carries(p) {
      var r: nat :| HasRead(st, ls, k, p.b, r);
      ReadGrows(st, ls, l, k, p.b, r);
      if PastResolution(p) {
        ResolvedGrows(st, ls, l, k, p.b, p.members);
        if p.Synced? {
          SyncedGrows(st, ls, l, k, p.b, p.members);
        }
      }
    }
  }

  /** After its RBAC step succeeds the managed object is the desired one. */
  lemma SyncedMatches(s: Store, k: Key, q: Local, env: Env)
    requires !q.Synced? && Advance(s, k, q, env).1.Synced?
    requires q.Stale? ==> q.existing.content.roleRef == DesiredRole(q.b.spec.role)
    ensures var (s', p) := Advance(s, k, q, env);
      PastResolution(q) && p.b == q.b && p.members == q.members
      && k in s'.rbs && Matches(s'.rbs[k].content, Desired(k, p.b, p.members))
  {
  }

  lemma ResolutionShape(s: Store, k: Key, q: Local, env: Env)
    ensures var p := Advance(s, k, q, env).1;
      && (PastResolution(p) ==>
            || (PastResolution(q) && p.b == q.b && p.members == q.members)
            || (q.HaveProvider? && p.b == q.b && env.answer == Members(p.members)))
      && (p.Stale? ==> p.existing.content.roleRef == DesiredRole(p.b.spec.role))
      && (q.Synced? ==> p.Finished?)
      && (q.Start? && Carries(p) ==> p.HaveBinding?)
  {
  }

  /** The step of the reconcile from q to p is the last label of the run. */
  ghost predicate LastStep(st: State, ls: seq<Label>, k: Key, q: Local, env: Env, p: Local) {
    && k in Exec(st, ls).workers && Exec(st, ls).workers[k] == q
    && k in Exec(st, ls + [Work(k, env)]).workers && Exec(st, ls + [Work(k, env)]).workers[k] == p
  }

  lemma StepIsLast(st: State, ls: seq<Label>, k: Key, q: Local, env: Env, p: Local)
    requires LastStep(st, ls, k, q, env, p)
    ensures var all := ls + [Work(k, env)];
      && IsStep(all, |ls|, k) && At(st, all, |ls|) == Exec(st, ls) && At(st, all, |ls| + 1) == Exec(st, all)
      && WorkerAt(st, all, |ls|, k) == Some(q) && WorkerAt(st, all, |ls| + 1, k) == Some(p)
  {
    PrefixAt(st, ls, Work(k, env), |ls|);
    LastAt(st, ls);
    LastAt(st, ls + [Work(k, env)]);
  }

  lemma ReadNow(st: State, ls: seq<Label>, k: Key, b: Binding, env: Env)
    requires LastStep(st, ls, k, Start, env, HaveBinding(b)) && BindingAt(Exec(st, ls).store, k) == Some(b)
    ensures WasRead(st, ls + [Work(k, env)], k, b)
  {
    StepIsLast(st, ls, k, Start, env, HaveBinding(b));
    assert HasRead(st, ls + [Work(k, env)], k, b, |ls|);
  }

  lemma ResolvedNow(st: State, ls: seq<Label>, k: Key, b: Binding, env: Env)
    requires WasRead(st, ls, k, b) && env.answer.Members?
    requires LastStep(st, ls, k, HaveProvider(b), env, HaveMembers(b, env.answer.names))
    ensures WasResolved(st, ls + [Work(k, env)], k, b, env.answer.names)
  {
    var l := Work(k, env);
    var r: nat :| HasRead(st, ls, k, b, r);
    ReadGrows(st, ls, l, k, b, r);
    StepIsLast(st, ls, k, HaveProvider(b), env, HaveMembers(b, env.answer.names));
    assert HasResolved(st, ls + [l], k, b, env.answer.names, r, |ls|);
  }

  lemma SyncedNow(st: State, ls: seq<Label>, k: Key, q: Local, env: Env, p: Local)
    requires LastStep(st, ls, k, q, env, p) && PastResolution(q) && !q.Synced? && p.Synced?
    requires p.b == q.b && p.members == q.members && WasResolved(st, ls, k, q.b, q.members)
    requires var c := RbacAt(Exec(st, ls + [Work(k, env)]).store, k);
      c.Some? && Matches(c.value, Desired(k, p.b, p.members))
    ensures WasSynced(st, ls + [Work(k, env)], k, p.b, p.members)
  {
    var l := Work(k, env);
    var r: nat, a: nat :| HasResolved(st, ls, k, q.b, q.members, r, a);
    ReadGrows(st, ls, l, k, p.b, r);
    EventsGrow(st, ls, l, k, p.b, p.members, a);
    StepIsLast(st, ls, k, q, env, p);
    assert HasSynced(st, ls + [l], k, p.b, p.members, r, a, |ls|);
  }

  lemma WorkerAdvances(st: State, ls: seq<Label>, k: Key, q: Local, env: Env, s': Store, p: Local)
    requires WorkerExplained(st, ls, k, q) && LastStep(st, ls, k, q, env, p)
    requires (s', p) == Advance(Exec(st, ls).store, k, q, env)
    requires Exec(st, ls + [Work(k, env)]).store == s'
    ensures WorkerExplained(st, ls + [Work(k, env)], k, p)
  {
    var l, s := Work(k, env), Exec(st, ls).store;
    AdvanceShape(s, k, q, env);
    ResolutionShape(s, k, q, env);
    if Carries(p) {
      if q.Start? {
        ReadNow(st, ls, k, p.b, env);
      } else {
        var r: nat :| HasRead(st, ls, k, p.b, r);
        ReadGrows(st, ls, l, k, p.b, r);
      }
      if PastResolution(p) {
        if PastResolution(q) {
          ResolvedGrows(st, ls, l, k, p.b, p.members);
        } else {
          ResolvedNow(st, ls, k, p.b, env);
        }
        if p.Synced? {
          SyncedMatches(s, k, q, env);
          SyncedNow(st, ls, k, q, env, p);
        }
      }
    }
  }

  lemma HistoryWorkers(st: State, ls: seq<Label>, l: Label, k: Key)
    requires History(st, ls) && k in Exec(st, ls + [l]).workers
    ensures WorkerExplained(st, ls + [l], k, Exec(st, ls + [l]).workers[k])
  {
    ExecSnoc(st, ls, l);
    var cur := Exec(st, ls);
    if l.Work? && l.key == k && k in cur.workers {
      var (s', p) := Advance(cur.store, k, cur.workers[k], l.env);
      WorkerAdvances(st, ls, k, cur.workers[k], l.env, s', p);
    } else if k in cur.workers {
      WorkerGrows(st, ls, l, k, cur.workers[k]);
    }
  }

  /** The binding is as it was up to a new spec, which counts as a new generation. */
  ghost predicate StatusKept(b: Binding, was: Binding) {
    && b.uid == was.uid && b.status == was.status && b.generation >= was.generation
    && (b.generation == was.generation ==> b.spec == was.spec)
  }

  /** The label is a status write of the reconcile that had read exactly this binding. */
  ghost predicate MarkWritten(st: State, l: Label, k: Key, was: Binding, b: Binding) {
    && l.Work? && l.key == k && k in st.workers && Carries(st.workers[k])
    && st.workers[k].b == was && SameVersion(b, was) && Marked(k, st.workers[k], l.env.now, b.status)
    && (PersistsSync(st, l, k) <==> st.workers[k].Synced?)
  }

  /** How a binding can look after a step of the run. */
  ghost predicate BindingChange(st: State, l: Label, k: Key, b: Binding) {
    if k !in st.store.bindings then b.status == EMPTY_STATUS
    else
      || (StatusKept(b, st.store.bindings[k]) && !PersistsSync(st, l, k))
      || MarkWritten(st, l, k, st.store.bindings[k], b)
  }

  lemma BindingShape(st: State, l: Label, k: Key)
    requires VersionsOk(st) && k in Next(st, l).store.bindings
    ensures BindingChange(st, l, k, Next(st, l).store.bindings[k])
  {
    if l.Work? && l.key in st.workers {
      AdvanceShape(st.store, l.key, st.workers[l.key], l.env);
      var s' := Advance(st.store, l.key, st.workers[l.key], l.env).0;
      assert BindingAt(s', k).Some?;
      if l.key != k {
        assert BindingAt(s', k) == BindingAt(st.store, k);
      }
    }
  }

  lemma PersistedBinding(st: State, l: Label, k: Key)
    requires PersistsSync(st, l, k)
    ensures k in Next(st, l).store.bindings
  {
  }

  lemma LastSyncSnoc(st: State, ls: seq<Label>, l: Label, k: Key)
    ensures LastSync(st, ls + [l], k) ==
      if PersistsSync(Exec(st, ls), l, k) then Some(|ls|)
      else if k !in Exec(st, ls + [l]).store.bindings then None
      else LastSync(st, ls, k)
  {
    assert (ls + [l])[..|ls|] == ls;
  }

  lemma NothingSynced(st: State, ls: seq<Label>, k: Key)
    requires k !in Exec(st, ls).store.bindings
    ensures LastSync(st, ls, k) == None
  {
    if ls != [] && PersistsSync(Exec(st, ls[..|ls| - 1]), ls[|ls| - 1], k) {
      PersistedBinding(Exec(st, ls[..|ls| - 1]), ls[|ls| - 1], k);
    }
  }

  lemma ReconciledGrows(st: State, ls: seq<Label>, l: Label, k: Key, b: Binding, members: seq<string>,
                        r: nat, a: nat, m: nat, w: nat)
    requires Reconciled(st, ls, k, b, members, r, a, m, w)
    ensures Reconciled(st, ls + [l], k, b, members, r, a, m, w)
  {
    EventsGrow(st, ls, l, k, b, members, r);
    EventsGrow(st, ls, l, k, b, members, a);
    EventsGrow(st, ls, l, k, b, members, m);
    EventsGrow(st, ls, l, k, b, members, w);
    PrefixWorkers(st, ls, l, k);
  }

  lemma ExplainedGrows(st: State, ls: seq<Label>, l: Label, k: Key, cur: Binding, cur': Binding, w: nat)
    requires Explained(st, ls, k, cur, w)
    requires cur'.uid == cur.uid && cur'.status.summary == cur.status.summary && cur'.generation >= cur.generation
    requires cur'.generation == cur.generation ==> cur'.spec == cur.spec
    requires ReadyTrue(cur') ==> ReadyTrue(cur) && cur'.status.observedGeneration == cur.status.observedGeneration
    ensures Explained(st, ls + [l], k, cur', w)
  {
    var b: Binding, members: seq<string>, r: nat, a: nat, m: nat :|
      && Reconciled(st, ls, k, b, members, r, a, m, w) && SpeaksOf(b, cur)
      && cur.status.summary == SyncSummary(k, members, ls[w].env.now);
    ReconciledGrows(st, ls, l, k, b, members, r, a, m, w);
    assert SpeaksOf(b, cur');
  }

  /** A markReady that takes effect completes the journey of its reconcile. */
  lemma SyncExplained(st: State, ls: seq<Label>, l: Label, k: Key, p: Local, was: Binding, b: Binding)
    requires k in Exec(st, ls).workers && Exec(st, ls).workers[k] == p && WorkerExplained(st, ls, k, p)
    requires PersistsSync(Exec(st, ls), l, k) && BindingAt(Exec(st, ls).store, k) == Some(was) && p.b == was
    requires SameVersion(b, was) && b.status == MarkReady(k, p.b, p.members, l.env.now).status
    ensures Explained(st, ls + [l], k, b, |ls|)
  {
    var all := ls + [l];
    var r: nat, a: nat, m: nat :| HasSynced(st, ls, k, p.b, p.members, r, a, m);
    EventsGrow(st, ls, l, k, p.b, p.members, r);
    EventsGrow(st, ls, l, k, p.b, p.members, a);
    EventsGrow(st, ls, l, k, p.b, p.members, m);
    PrefixWorkers(st, ls, l, k);
    PrefixAt(st, ls, l, |ls|);
    LastAt(st, ls);
    assert MarksAt(st, all, |ls|, k, p.b, p.members);
    assert Reconciled(st, all, k, p.b, p.members, r, a, m, |ls|);
    assert SpeaksOf(p.b, b);
  }

  lemma HistoryBindings(st: State, ls: seq<Label>, l: Label, k: Key)
    requires History(st, ls) && VersionsOk(Exec(st, ls)) && AllConditionsOk(Exec(st, ls))
    requires k in Exec(st, ls + [l]).store.bindings
    ensures StatusExplained(st, ls + [l], k, Exec(st, ls + [l]).store.bindings[k])
  {
    ExecSnoc(st, ls, l);
    BindingShape(Exec(st, ls), l, k);
    BindingExplained(st, ls, l, k, Exec(st, ls), Exec(st, ls + [l]).store.bindings[k]);
  }

  lemma BindingExplained(st: State, ls: seq<Label>, l: Label, k: Key, cur: State, b: Binding)
    requires cur == Exec(st, ls) && History(st, ls) && AllConditionsOk(cur)
    requires BindingChange(cur, l, k, b) && k in Exec(st, ls + [l]).store.bindings
    ensures StatusExplained(st, ls + [l], k, b)
  {
    LastSyncSnoc(st, ls, l, k);
    if k !in cur.store.bindings {
      NothingSynced(st, ls, k);
    } else {
      var was := cur.store.bindings[k];
      if StatusKept(b, was) && !PersistsSync(cur, l, k) {
        if LastSync(st, ls, k).Some? {
          ExplainedGrows(st, ls, l, k, was, b, LastSync(st, ls, k).value);
        }
      } else {
        WrittenExplained(st, ls, l, k, cur, was, b);
      }
    }
  }

  lemma WrittenExplained(st: State, ls: seq<Label>, l: Label, k: Key, cur: State, was: Binding, b: Binding)
    requires cur == Exec(st, ls) && BindingAt(cur.store, k) == Some(was) && MarkWritten(cur, l, k, was, b)
    requires C.UniqueTypes(was.status.conditions) && k in Exec(st, ls + [l]).store.bindings
    requires WorkerExplained(st, ls, k, cur.workers[k]) && StatusExplained(st, ls, k, was)
    ensures StatusExplained(st, ls + [l], k, b)
  {
    var p := cur.workers[k];
    LastSyncSnoc(st, ls, l, k);
    MarkedConditions(k, p, l.env.now, b.status);
    if p.Synced? {
      SyncExplained(st, ls, l, k, p, was, b);
    } else if LastSync(st, ls, k).Some? {
      ExplainedGrows(st, ls, l, k, was, b, LastSync(st, ls, k).value);
    }
  }

  lemma {:induction false} HistoryAlways(st: State, ls: seq<Label>)
    requires Init(st)
    ensures History(st, ls)
    decreases |ls|
  {
    if ls != [] {
      var front, l := ls[..|ls| - 1], ls[|ls| - 1];
      assert ls == front + [l];
      HistoryAlways(st, front);
      VersionsAlways(st, front);
      ConditionsAlways(st, front);
      forall k | k in Exec(st, ls).workers {
        HistoryWorkers(st, front, l, k);
      }
      forall k | k in Exec(st, ls).store.bindings {
        HistoryBindings(st, front, l, k);
      }
    }
  }

  /** In every reachable state, Ready=True with observedGeneration equal to generation was written by one
      reconcile of this key, and that same reconcile - without an end, a crash or another one in between - had
      read this object with this very generation and spec at r, had been answered with some members at a later
      step a, had at a later step m left or found exactly the managed object for this spec and these members,
      and persisted its markReady at w, which is the last markReady persisted for this object. */
  lemma ReadyIsJustified(st: State, ls: seq<Label>, k: Key)
    requires Init(st) && k in Exec(st, ls).store.bindings && ReadyCurrent(Exec(st, ls).store.bindings[k])
    ensures exists b: Binding, members: seq<string>, r: nat, a: nat, m: nat, w: nat ::
      var cur := Exec(st, ls).store.bindings[k];
      && Reconciled(st, ls, k, b, members, r, a, m, w)
      && b.uid == cur.uid && b.generation == cur.generation && b.spec == cur.spec
      && LastSync(st, ls, k) == Some(w)
      && cur.status.summary.memberCount == MemberCount(members)
      && cur.status.summary.hash == Some(MembersHash(members))
  {
    HistoryAlways(st, ls);
    var cur := Exec(st, ls).store.bindings[k];
    var w := LastSync(st, ls, k).value;
    var b: Binding, members: seq<string>, r: nat, a: nat, m: nat :|
      && Reconciled(st, ls, k, b, members, r, a, m, w) && SpeaksOf(b, cur)
      && cur.status.summary == SyncSummary(k, members, ls[w].env.now);
    assert b.generation == cur.generation;
  }

  /** In every reachable state the summary fields of a binding are unset if no markReady was ever persisted for
      it, and otherwise all describe the member list, and the time, of the last markReady that was. */
  lemma SummaryDescribesOneList(st: State, ls: seq<Label>, k: Key)
    requires Init(st) && k in Exec(st, ls).store.bindings
    ensures var cur := Exec(st, ls).store.bindings[k];
      match LastSync(st, ls, k)
      case None => cur.status.summary == NO_SUMMARY
      case Some(w) =>
        w < |ls| && IsStep(ls, w, k) &&
        exists b: Binding, members: seq<string>, r: nat, a: nat, m: nat ::
          && Reconciled(st, ls, k, b, members, r, a, m, w) && b.uid == cur.uid
          && cur.status.summary == SyncSummary(k, members, ls[w].env.now)
  {
    HistoryAlways(st, ls);
    var cur := Exec(st, ls).store.bindings[k];
    if LastSync(st, ls, k).Some? {
      var w := LastSync(st, ls, k).value;
      var b: Binding, members: seq<string>, r: nat, a: nat, m: nat :|
        && Reconciled(st, ls, k, b, members, r, a, m, w) && SpeaksOf(b, cur)
        && cur.status.summary == SyncSummary(k, members, ls[w].env.now);
      assert Reconciled(st, ls, k, b, members, r, a, m, w) && b.uid == cur.uid;
    }
  }

  /** A step that changes the summary of a surviving binding is a markReady that takes effect, over the very binding
      that was read; it writes the whole Ready status and becomes the last one. */
  lemma SummaryWrittenByMarkReady(st: State, ls: seq<Label>, l: Label, k: Key)
    requires Init(st) && k in Exec(st, ls).store.bindings && k in Exec(st, ls + [l]).store.bindings
    requires Exec(st, ls + [l]).store.bindings[k].uid == Exec(st, ls).store.bindings[k].uid
    requires Exec(st, ls + [l]).store.bindings[k].status.summary != Exec(st, ls).store.bindings[k].status.summary
    ensures PersistsSync(Exec(st, ls), l, k) && LastSync(st, ls + [l], k) == Some(|ls|)
    ensures var p := Exec(st, ls).workers[k];
      && p.b == Exec(st, ls).store.bindings[k]
      && Exec(st, ls + [l]).store.bindings[k].status == MarkReady(k, p.b, p.members, l.env.now).status
  {
    VersionsAlways(st, ls);
    ExecSnoc(st, ls, l);
    BindingShape(Exec(st, ls), l, k);
    LastSyncSnoc(st, ls, l, k);
  }

  /** With a directory client that sorts, the summary stored in any reachable state is unset if no markReady was
      ever persisted for the binding, and otherwise faithful to the list the reconcile that persisted the last
      one was answered with: its length up to the int32 limit, its smallest names, its hash. */
  lemma StoredSummaryIsFaithful(st: State, ls: seq<Label>, k: Key)
    requires Init(st) && k in Exec(st, ls).store.bindings
    requires forall i :: 0 <= i < |ls| && ls[i].Work? && ls[i].env.answer.Members? ==>
               Sorted(ls[i].env.answer.names, StringLeq)
    ensures var summary := Exec(st, ls).store.bindings[k].status.summary;
      match LastSync(st, ls, k)
      case None => summary == NO_SUMMARY
      case Some(w) =>
        w < |ls| && IsStep(ls, w, k) && summary.lastSyncTime == Some(ls[w].env.now) &&
        exists b: Binding, members: seq<string>, r: nat, a: nat, m: nat ::
          Reconciled(st, ls, k, b, members, r, a, m, w) && Summarizes(summary, k, members)
  {
    SummaryDescribesOneList(st, ls, k);
    var cur := Exec(st, ls).store.bindings[k];
    if LastSync(st, ls, k).Some? {
      var w := LastSync(st, ls, k).value;
      var b: Binding, members: seq<string>, r: nat, a: nat, m: nat :|
        && Reconciled(st, ls, k, b, members, r, a, m, w) && b.uid == cur.uid
        && cur.status.summary == SyncSummary(k, members, ls[w].env.now);
      SummaryIsFaithful(k, members, ls[w].env.now);
      assert Reconciled(st, ls, k, b, members, r, a, m, w) && Summarizes(cur.status.summary, k, members);
    }
  }

  // ---------- The managed object over runs ----------

  /** A worker about to update or delete holds an object that is no newer than the store, and identical to the
      stored one if their resourceVersions agree. */
  ghost predicate ObjectReadOk(st: State) {
    forall k :: k in st.workers && (st.workers[k].Stale? || st.workers[k].Differs?) ==>
      var o := st.workers[k].existing;
      o.version < st.store.clock && (k in st.store.rbs && st.store.rbs[k].version == o.version ==> st.store.rbs[k] == o)
  }

  /** What a step does to the stored object, and where the object a worker holds comes from. */
  ghost predicate ObjectShape(s: Store, k: Key, s': Store, p: Local) {
    && s.clock <= s'.clock
    && (k in s'.rbs ==> s'.rbs[k].version >= s.clock || (k in s.rbs && s'.rbs[k] == s.rbs[k]))
    && (p.Stale? || p.Differs? ==> s' == s && k in s.rbs && p.existing == s.rbs[k])
  }

  lemma AdvanceObject(s: Store, k: Key, l: Local, env: Env)
    ensures ObjectShape(s, k, Advance(s, k, l, env).0, Advance(s, k, l, env).1)
  {
  }

  lemma ObjectReadWork(st: State, k: Key, s': Store, p: Local)
    requires VersionsOk(st) && ObjectReadOk(st) && k in st.workers
    requires ObjectShape(st.store, k, s', p) && OnlyKeyChanged(st.store, s', k)
    ensures ObjectReadOk(AfterWork(st, k, s', p))
  {
  }

  lemma ObjectReadDrift(st: State, k: Key, content: Option<Content>)
    requires VersionsOk(st) && ObjectReadOk(st)
    ensures ObjectReadOk(Next(st, Drift(k, content)))
  {
  }

  lemma ObjectReadOther(st: State, l: Label)
    requires VersionsOk(st) && ObjectReadOk(st) && !l.Work? && !l.Drift?
    ensures ObjectReadOk(Next(st, l))
  {
  }

  lemma ObjectReadStep(st: State, l: Label)
    requires VersionsOk(st) && ObjectReadOk(st)
    ensures ObjectReadOk(Next(st, l))
  {
    if l.Drift? {
      ObjectReadDrift(st, l.key, l.content);
    } else if !l.Work? {
      ObjectReadOther(st, l);
    } else if l.key in st.workers {
      var (s', p) := Advance(st.store, l.key, st.workers[l.key], l.env);
      AdvanceObject(st.store, l.key, st.workers[l.key], l.env);
      AdvanceOwnKey(st.store, l.key, st.workers[l.key], l.env);
      ObjectReadWork(st, l.key, s', p);
      assert Next(st, l) == AfterWork(st, l.key, s', p);
    }
  }

  lemma {:induction false} ObjectReadAlways(st: State, ls: seq<Label>)
    requires Init(st)
    ensures ObjectReadOk(Exec(st, ls)) && VersionsOk(Exec(st, ls))
    decreases |ls|
  {
    VersionsAlways(st, ls);
    if ls != [] {
      ObjectReadAlways(st, ls[..|ls| - 1]);
      ObjectReadStep(Exec(st, ls[..|ls| - 1]), ls[|ls| - 1]);
    }
  }

  /** In every reachable state the object a reconcile is about to send in an Update carries the role its spec asks
      for, and that is the role of the stored object whenever the resourceVersions agree. */
  lemma UpdateSendsStoredRole(st: State, ls: seq<Label>, k: Key)
    requires Init(st) && k in Exec(st, ls).workers && Exec(st, ls).workers[k].Stale?
    ensures var s, p := Exec(st, ls).store, Exec(st, ls).workers[k];
      var sent := Patched(k, p.b, p.members, p.existing);
      && sent.content.roleRef == DesiredRole(p.b.spec.role)
      && (k in s.rbs && s.rbs[k].version == sent.version ==> s.rbs[k].content.roleRef == sent.content.roleRef)
  {
    HistoryAlways(st, ls);
    ObjectReadAlways(st, ls);
  }

  /** The API server's ban on changing a roleRef is never what rejects an Update of the controller: in every
      reachable state its step is the same on a server without that ban. */
  lemma RoleBanNeverNeeded(st: State, ls: seq<Label>, k: Key, env: Env)
    requires Init(st) && k in Exec(st, ls).workers
    ensures var s, p := Exec(st, ls).store, Exec(st, ls).workers[k];
      Advance(s, k, p, env) == AdvanceOnLaxServer(s, k, p, env)
  {
    if Exec(st, ls).workers[k].Stale? {
      UpdateSendsStoredRole(st, ls, k);
    }
  }

  /** A step of the reconcile loop on an API server that accepts an update of any roleRef. */
  function AdvanceOnLaxServer(s: Store, k: Key, l: Local, env: Env): (Store, Local) {
    if l.Stale? then
      var (s', ok) := UpdateAnyRole(s, k, Patched(k, l.b, l.members, l.existing), env.update);
      (s', if ok then Synced(l.b, l.members, Updated) else Failing(l.b))
    else Advance(s, k, l, env)
  }

  /** roleRef never changes in place, and that is the controller's doing: in every reachable state its step, even
      against a server that would accept a new role in an update, leaves an object that keeps its uid with the
      role it had. */
  lemma RoleNeverChangesInPlace(st: State, ls: seq<Label>, k: Key, env: Env)
    requires Init(st) && k in Exec(st, ls).workers
    ensures var s := Exec(st, ls).store;
      var s' := AdvanceOnLaxServer(s, k, Exec(st, ls).workers[k], env).0;
      forall j :: j in s.rbs && j in s'.rbs && s'.rbs[j].uid == s.rbs[j].uid ==>
        s'.rbs[j].content.roleRef == s.rbs[j].content.roleRef
  {
    RoleBanNeverNeeded(st, ls, k, env);
    VersionsAlways(st, ls);
    RoleKept(Exec(st, ls).store, k, Exec(st, ls).workers[k], env);
  }

  lemma RoleKept(s: Store, k: Key, l: Local, env: Env)
    ensures var s' := Advance(s, k, l, env).0;
      forall j :: j in s.rbs && j in s'.rbs ==> s'.rbs[j].content.roleRef == s.rbs[j].content.roleRef
  {
  }

  ghost predicate ObjectStoredAt(st: State, ls: seq<Label>, i: nat, k: Key, o: RbacObject)
    requires i <= |ls|
  {
    k in At(st, ls, i).store.rbs && At(st, ls, i).store.rbs[k] == o
  }

  /** At label i the reconcile of k read the stored object p.existing, found another role than its spec asks for,
      and has stood there since. */
  ghost predicate FoundOtherRole(st: State, ls: seq<Label>, k: Key, p: Local, i: nat) {
    && i < |ls| && IsStep(ls, i, k) && p.Differs? && p.existing.content.roleRef != DesiredRole(p.b.spec.role)
    && WorkerAt(st, ls, i, k) == Some(HaveMembers(p.b, p.members)) && ObjectStoredAt(st, ls, i, k, p.existing)
    && forall j: nat :: i < j <= |ls| ==> WorkerAt(st, ls, j, k) == Some(p)
  }

  ghost predicate DiffersExplained(st: State, ls: seq<Label>) {
    forall k :: k in Exec(st, ls).workers && Exec(st, ls).workers[k].Differs? ==>
      exists i: nat :: FoundOtherRole(st, ls, k, Exec(st, ls).workers[k], i)
  }

  lemma FoundOtherRoleGrows(st: State, ls: seq<Label>, l: Label, k: Key, p: Local, i: nat)
    requires FoundOtherRole(st, ls, k, p, i)
    requires k in Exec(st, ls + [l]).workers && Exec(st, ls + [l]).workers[k] == p
    ensures FoundOtherRole(st, ls + [l], k, p, i)
  {
    PrefixWorkers(st, ls, l, k);
    PrefixAt(st, ls, l, i);
    LastAt(st, ls + [l]);
  }

  lemma DiffersShape(s: Store, k: Key, q: Local, env: Env)
    requires Advance(s, k, q, env).1.Differs?
    ensures var p := Advance(s, k, q, env).1;
      && q == HaveMembers(p.b, p.members) && k in s.rbs && s.rbs[k] == p.existing
      && p.existing.content.roleRef != DesiredRole(p.b.spec.role)
  {
  }

  lemma FoundOtherRoleHere(st: State, ls: seq<Label>, k: Key, p: Local, i: nat)
    requires |ls| == i + 1 && IsStep(ls, i, k) && p.Differs?
    requires WorkerAt(st, ls, i, k) == Some(HaveMembers(p.b, p.members)) && WorkerAt(st, ls, i + 1, k) == Some(p)
    requires ObjectStoredAt(st, ls, i, k, p.existing)
    requires p.existing.content.roleRef != DesiredRole(p.b.spec.role)
    ensures FoundOtherRole(st, ls, k, p, i)
  {
    forall j: nat | i < j <= |ls| ensures WorkerAt(st, ls, j, k) == Some(p) {
      assert j == i + 1;
    }
  }

  lemma FoundOtherRoleNow(st: State, ls: seq<Label>, k: Key, q: Local, env: Env, p: Local)
    requires LastStep(st, ls, k, q, env, p) && p.Differs? && q == HaveMembers(p.b, p.members)
    requires ObjectAt(Exec(st, ls).store, k) == Some(p.existing)
    requires p.existing.content.roleRef != DesiredRole(p.b.spec.role)
    ensures FoundOtherRole(st, ls + [Work(k, env)], k, p, |ls|)
  {
    StepIsLast(st, ls, k, q, env, p);
    FoundOtherRoleHere(st, ls + [Work(k, env)], k, p, |ls|);
  }

  lemma {:induction false} DiffersAlways(st: State, ls: seq<Label>)
    requires Init(st)
    ensures DiffersExplained(st, ls)
    decreases |ls|
  {
    if ls != [] {
      var front, l := ls[..|ls| - 1], ls[|ls| - 1];
      assert ls == front + [l];
      DiffersAlways(st, front);
      var cur := Exec(st, front);
      forall k | k in Exec(st, ls).workers && Exec(st, ls).workers[k].Differs?
        ensures exists i: nat :: FoundOtherRole(st, ls, k, Exec(st, ls).workers[k], i)
      {
        var p := Exec(st, ls).workers[k];
        if l.Work? && l.key == k {
          DiffersShape(cur.store, k, cur.workers[k], l.env);
          FoundOtherRoleNow(st, front, k, cur.workers[k], l.env, p);
        } else {
          var i: nat :| FoundOtherRole(st, front, k, p, i);
          FoundOtherRoleGrows(st, front, l, k, p, i);
        }
      }
    }
  }

  /** In every run the controller makes a managed object absent only at its Delete, only when the object this very
      reconcile had read, the one stored at the time, carried another role than the spec it had read asks for;
      and its next step is the Create unless the reply was lost. */
  lemma AbsentOnlyForAnotherRole(st: State, ls: seq<Label>, env: Env, k: Key)
    requires Init(st)
    requires k in Exec(st, ls).store.rbs && k !in Next(Exec(st, ls), Work(k, env)).store.rbs
    ensures k in Exec(st, ls).workers && Exec(st, ls).workers[k].Differs?
    ensures exists i: nat :: FoundOtherRole(st, ls, k, Exec(st, ls).workers[k], i)
    ensures var p, nxt := Exec(st, ls).workers[k], Next(Exec(st, ls), Work(k, env));
      k in nxt.workers &&
      nxt.workers[k] == if env.delete.NoFault? then Deleted(p.b, p.members) else Failing(p.b)
  {
    DiffersAlways(st, ls);
  }

  // ---------- One reconcile alone is a run ----------

  lemma DriveOnce(s: Store, k: Key, l: Local, env: Env)
    requires !l.Finished?
    ensures var (s', l') := Advance(s, k, l, env);
      Drive(s, k, l, env) == Drive(s', k, l', env) && Rank(l') < Rank(l)
  {
  }

  /** The steps of a reconcile in flight, with nothing in between. */
  lemma {:induction false} StepsAreARun(st: State, k: Key, env: Env, rank: nat) returns (ls: seq<Label>)
    requires k in st.workers && !st.workers[k].Finished? && Rank(st.workers[k]) <= rank
    ensures Exec(st, ls) == State(Drive(st.store, k, st.workers[k], env).0, st.workers - {k})
    ensures forall i :: 0 <= i < |ls| ==> ls[i] == Work(k, env)
    decreases rank
  {
    var w := Work(k, env);
    var (s', l') := Advance(st.store, k, st.workers[k], env);
    DriveOnce(st.store, k, st.workers[k], env);
    var nxt := AfterWork(st, k, s', l');
    ExecOne(st, w);
    if l'.Finished? {
      ls := [w];
    } else {
      var rest := StepsAreARun(nxt, k, env, rank - 1);
      ExecConcat(st, [w], rest);
      ls := [w] + rest;
      assert nxt.workers - {k} == st.workers - {k};
    }
  }

  lemma ExecOne(st: State, l: Label)
    ensures Exec(st, [l]) == Next(st, l)
  {
    ExecSnoc(st, [], l);
    assert [] + [l] == [l];
  }

  /** What the imperative reconciler does in one call is the run of its begin and its steps, with nothing in
      between; so every statement about runs covers it. */
  lemma DriveIsARun(st: State, k: Key, env: Env) returns (ls: seq<Label>)
    requires k !in st.workers
    ensures Exec(st, ls) == State(Drive(st.store, k, Start, env).0, st.workers)
    ensures ls != [] && ls[0] == Begin(k) && forall i :: 1 <= i < |ls| ==> ls[i] == Work(k, env)
  {
    var begun := Next(st, Begin(k));
    ExecOne(st, Begin(k));
    var steps := StepsAreARun(begun, k, env, Rank(Start));
    ExecConcat(st, [Begin(k)], steps);
    ls := [Begin(k)] + steps;
    assert begun.workers - {k} == st.workers;
  }

  lemma ReadyAlone(s: Store, k: Key, members: seq<string>, env: Env)
    requires ProviderKnown(s, k) && Clean(env, members)
    ensures var s' := Drive(s, k, Start, env).0;
      k in s'.bindings && ReadyCurrent(s'.bindings[k]) && SameVersion(s'.bindings[k], s.bindings[k])
  {
    StatusTellsOutcome(s, k, env);
    DriveOwnKey(s, k, Start, env);
  }

  /** The labels by which the operator alone restarts a reconcile of k and brings it to its end. */
  predicate Restarts(ls: seq<Label>, k: Key, env: Env) {
    forall i :: 0 <= i < |ls| ==> ls[i] == Crash(k) || ls[i] == Begin(k) || ls[i] == Work(k, env)
  }

  lemma RestartIsARun(st: State, k: Key, env: Env) returns (ls: seq<Label>)
    ensures Restarts(ls, k, env) && Exec(st, ls).store == Drive(st.store, k, Start, env).0
  {
    var stopped := Next(st, Crash(k));
    ExecOne(st, Crash(k));
    var alone := DriveIsARun(stopped, k, env);
    ExecConcat(st, [Crash(k)], alone);
    ls := [Crash(k)] + alone;
  }

  /** Ready is always within reach of the operator alone: from every reachable state in which the provider of k exists,
      one crash and one reconcile of k lead to Ready=True for the same generation and spec of the same object. */
  lemma ReadyIsReachable(st: State, ls: seq<Label>, k: Key, members: seq<string>, env: Env) returns (more: seq<Label>)
    requires Init(st) && ProviderKnown(Exec(st, ls).store, k) && Clean(env, members)
    ensures ls <= more && Restarts(more[|ls|..], k, env)
    ensures var s := Exec(st, more).store;
      k in s.bindings && ReadyCurrent(s.bindings[k]) && SameVersion(s.bindings[k], Exec(st, ls).store.bindings[k])
  {
    var tail := RestartIsARun(Exec(st, ls), k, env);
    ReadyAlone(Exec(st, ls).store, k, members, env);
    ExecConcat(st, ls, tail);
    more := ls + tail;
    assert more[|ls|..] == tail;
  }

  lemma {:induction false} ExecConcat(st: State, ls: seq<Label>, tail: seq<Label>)
    ensures Exec(st, ls + tail) == Exec(Exec(st, ls), tail)
    decreases |tail|
  {
    if tail == [] {
      assert ls + tail == ls;
    } else {
      var front, l := tail[..|tail| - 1], tail[|tail| - 1];
      ExecConcat(st, ls, front);
      assert ls + tail == (ls + front) + [l];
      ExecSnoc(st, ls + front, l);
    }
  }
}
