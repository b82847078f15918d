/** Reconciles of different keys do not interfere, call by call: an interleaved run does to each key what the labels
    of that key alone do, so every interleaving of whole reconciles refines the batch that runs them one by one. */
module Interleaving {
  import opened Api
  import opened RbacSync
  import opened Protocol
  import opened Convergence
  import opened Runs

  /** Of k itself, everything except its creation, whose uid counts all writes, and its collection, which looks at
      all bindings; of other keys, everything. */
  predicate Independent(l: Label, k: Key) {
    l.CreateBinding? || l.Collect? ==> l.key != k
  }

  predicate Concerns(l: Label, k: Key) {
    l.SetProviders? || l.key == k
  }

  /** The labels that concern k, in order. */
  function Own(ls: seq<Label>, k: Key): seq<Label>
    decreases |ls|
  {
    if ls == [] then []
    else
      var l := ls[|ls| - 1];
      Own(ls[..|ls| - 1], k) + if Concerns(l, k) then [l] else []
  }

  // ---------- Equality up to uids and resourceVersions ----------

  function EraseBinding(b: Binding): Binding {
    b.(version := 0)
  }

  function EraseObject(o: RbacObject): RbacObject {
    RbacObject(0, 0, o.content)
  }

  function Erase(l: Local): Local {
    match l
    case Start => l
    case HaveBinding(b) => HaveBinding(EraseBinding(b))
    case HaveProvider(b) => HaveProvider(EraseBinding(b))
    case HaveMembers(b, m) => HaveMembers(EraseBinding(b), m)
    case Differs(b, m, o) => Differs(EraseBinding(b), m, EraseObject(o))
    case Deleted(b, m) => Deleted(EraseBinding(b), m)
    case Absent(b, m) => Absent(EraseBinding(b), m)
    case Stale(b, m, o) => Stale(EraseBinding(b), m, EraseObject(o))
    case Synced(b, m, o) => Synced(EraseBinding(b), m, o)
    case Failing(b) => Failing(EraseBinding(b))
    case Missing(b) => Missing(EraseBinding(b))
    case Finished(_) => l
  }

  predicate BindingFresh(s: Store, k: Key, l: Local) {
    Carries(l) && k in s.bindings && s.bindings[k].version == l.b.version
  }

  predicate ObjectFresh(s: Store, k: Key, l: Local) {
    l.Stale? && k in s.rbs && s.rbs[k].version == l.existing.version
  }

  /** The two stores agree on k. */
  predicate SameStore(s: Store, t: Store, k: Key) {
    && s.providers == t.providers && RbacAt(s, k) == RbacAt(t, k)
    && (k in s.bindings <==> k in t.bindings)
    && (k in s.bindings ==> EraseBinding(s.bindings[k]) == EraseBinding(t.bindings[k]))
  }

  /** The two reconciles of k stand at the same point, and what they hold is up to date in both or in neither. */
  predicate SameLocal(s: Store, p: Local, t: Store, q: Local, k: Key) {
    && Erase(p) == Erase(q)
    && (BindingFresh(s, k, p) <==> BindingFresh(t, k, q)) && (ObjectFresh(s, k, p) <==> ObjectFresh(t, k, q))
  }

  predicate Same(x: State, y: State, k: Key) {
    && SameStore(x.store, y.store, k)
    && (k in x.workers <==> k in y.workers)
    && (k in x.workers ==> SameLocal(x.store, x.workers[k], y.store, y.workers[k], k))
  }

  /** The same step from states that agree leads to states that agree. */
  ghost predicate StepsAgree(s: Store, p: Local, t: Store, q: Local, k: Key, env: Env) {
    var (s', p') := Advance(s, k, p, env);
    var (t', q') := Advance(t, k, q, env);
    SameStore(s', t', k) && SameLocal(s', p', t', q', k) && (p'.Finished? <==> q'.Finished?)
  }

  lemma SameRead(s: Store, p: Local, t: Store, q: Local, k: Key, env: Env)
    requires SameStore(s, t, k) && SameLocal(s, p, t, q, k)
    requires p.Start? || p.HaveBinding? || p.HaveProvider? || p.Finished?
    ensures StepsAgree(s, p, t, q, k, env)
  {
  }

  lemma SameRbRead(s: Store, p: Local, t: Store, q: Local, k: Key, env: Env)
    requires SameStore(s, t, k) && SameLocal(s, p, t, q, k) && p.HaveMembers?
    ensures StepsAgree(s, p, t, q, k, env)
  {
    assert Desired(k, p.b, p.members) == Desired(k, q.b, q.members);
  }

  lemma SameDelete(s: Store, p: Local, t: Store, q: Local, k: Key, env: Env)
    requires SameStore(s, t, k) && SameLocal(s, p, t, q, k) && p.Differs?
    ensures StepsAgree(s, p, t, q, k, env)
  {
  }

  lemma SameCreated(s: Store, t: Store, k: Key, c: Content, f: Fault)
    requires SameStore(s, t, k)
    ensures var (s', ok) := CreateRb(s, k, c, f);
      var (t', ok') := CreateRb(t, k, c, f);
      SameStore(s', t', k) && ok == ok' && s'.bindings == s.bindings && t'.bindings == t.bindings
  {
  }

  lemma SameCreate(s: Store, p: Local, t: Store, q: Local, k: Key, env: Env)
    requires SameStore(s, t, k) && SameLocal(s, p, t, q, k) && (p.Deleted? || p.Absent?)
    ensures StepsAgree(s, p, t, q, k, env)
  {
    assert Desired(k, p.b, p.members) == Desired(k, q.b, q.members);
    SameCreated(s, t, k, Desired(k, p.b, p.members), env.create);
  }

  lemma SameUpdated(s: Store, t: Store, k: Key, o: RbacObject, q: RbacObject, f: Fault)
    requires SameStore(s, t, k) && o.content == q.content
    requires (k in s.rbs && s.rbs[k].version == o.version) <==> (k in t.rbs && t.rbs[k].version == q.version)
    ensures var (s', ok) := UpdateRb(s, k, o, f);
      var (t', ok') := UpdateRb(t, k, q, f);
      SameStore(s', t', k) && ok == ok' && s'.bindings == s.bindings && t'.bindings == t.bindings
  {
  }

  lemma SameUpdate(s: Store, p: Local, t: Store, q: Local, k: Key, env: Env)
    requires SameStore(s, t, k) && SameLocal(s, p, t, q, k) && p.Stale?
    ensures StepsAgree(s, p, t, q, k, env)
  {
    var sent, sent' := Patched(k, p.b, p.members, p.existing), Patched(k, q.b, q.members, q.existing);
    assert sent.content == sent'.content;
    SameUpdated(s, t, k, sent, sent', env.update);
  }

  lemma SameWritten(s: Store, t: Store, k: Key, b: Binding, c: Binding, f: Fault)
    requires SameStore(s, t, k) && b.status == c.status
    requires (k in s.bindings && s.bindings[k].version == b.version) <==>
             (k in t.bindings && t.bindings[k].version == c.version)
    ensures var (s', ok) := UpdateStatus(s, k, b, f);
      var (t', ok') := UpdateStatus(t, k, c, f);
      SameStore(s', t', k) && ok == ok'
  {
  }

  lemma SameStatus(s: Store, p: Local, t: Store, q: Local, k: Key, env: Env)
    requires SameStore(s, t, k) && SameLocal(s, p, t, q, k) && (p.Synced? || p.Failing? || p.Missing?)
    ensures StepsAgree(s, p, t, q, k, env)
  {
    assert EraseBinding(p.b) == EraseBinding(q.b);
    if p.Synced? {
      SameWritten(s, t, k, MarkReady(k, p.b, p.members, env.now), MarkReady(k, q.b, q.members, env.now), env.status);
    } else if p.Failing? {
      SameWritten(s, t, k, MarkDegraded(p.b), MarkDegraded(q.b), env.status);
    } else {
      SameWritten(s, t, k, MarkGroupNotFound(p.b), MarkGroupNotFound(q.b), env.status);
    }
  }

  lemma SameStep(s: Store, p: Local, t: Store, q: Local, k: Key, env: Env)
    requires SameStore(s, t, k) && SameLocal(s, p, t, q, k)
    ensures StepsAgree(s, p, t, q, k, env)
  {
    match p
    case HaveMembers(_, _) => SameRbRead(s, p, t, q, k, env);
    case Differs(_, _, _) => SameDelete(s, p, t, q, k, env);
    case Deleted(_, _) => SameCreate(s, p, t, q, k, env);
    case Absent(_, _) => SameCreate(s, p, t, q, k, env);
    case Stale(_, _, _) => SameUpdate(s, p, t, q, k, env);
    case Synced(_, _, _) => SameStatus(s, p, t, q, k, env);
    case Failing(_) => SameStatus(s, p, t, q, k, env);
    case Missing(_) => SameStatus(s, p, t, q, k, env);
    case _ => SameRead(s, p, t, q, k, env);
  }

  // ---------- Labels ----------

  /** resourceVersions identify what was read; it holds in every reachable state (ObjectReadAlways). */
  ghost predicate Fresh(st: State) {
    VersionsOk(st) && ObjectReadOk(st)
  }

  lemma FreshStep(st: State, l: Label)
    requires Fresh(st)
    ensures Fresh(Next(st, l))
  {
    VersionsStep(st, l);
    ObjectReadStep(st, l);
  }

  lemma SameOwnWork(x: State, y: State, k: Key, env: Env)
    requires Same(x, y, k)
    ensures Same(Next(x, Work(k, env)), Next(y, Work(k, env)), k)
  {
    if k in x.workers {
      SameStep(x.store, x.workers[k], y.store, y.workers[k], k, env);
    }
  }

  lemma SameOwnDrift(x: State, y: State, k: Key, content: Option<Content>)
    requires Same(x, y, k) && Fresh(x) && Fresh(y)
    ensures Same(Next(x, Drift(k, content)), Next(y, Drift(k, content)), k)
  {
  }

  lemma SameOwnEdit(x: State, y: State, k: Key, spec: Spec)
    requires Same(x, y, k) && Fresh(x) && Fresh(y)
    ensures Same(Next(x, EditSpec(k, spec)), Next(y, EditSpec(k, spec)), k)
  {
  }

  lemma SameOwnOther(x: State, y: State, k: Key, l: Label)
    requires Same(x, y, k) && Independent(l, k) && Concerns(l, k) && !l.Work? && !l.Drift? && !l.EditSpec?
    ensures Same(Next(x, l), Next(y, l), k)
  {
  }

  lemma SameOwnLabel(x: State, y: State, k: Key, l: Label)
    requires Same(x, y, k) && Fresh(x) && Fresh(y) && Independent(l, k) && Concerns(l, k)
    ensures Same(Next(x, l), Next(y, l), k)
  {
    if l.Work? {
      SameOwnWork(x, y, k, l.env);
    } else if l.Drift? {
      SameOwnDrift(x, y, k, l.content);
    } else if l.EditSpec? {
      SameOwnEdit(x, y, k, l.spec);
    } else {
      SameOwnOther(x, y, k, l);
    }
  }

  /** A label of another key leaves everything about k as it is. */
  lemma OtherLabelKeeps(x: State, k: Key, l: Label)
    requires Independent(l, k) && !Concerns(l, k)
    ensures var nxt := Next(x, l);
      && nxt.store.providers == x.store.providers && BindingAt(nxt.store, k) == BindingAt(x.store, k)
      && ObjectAt(nxt.store, k) == ObjectAt(x.store, k)
      && (k in nxt.workers <==> k in x.workers) && (k in x.workers ==> nxt.workers[k] == x.workers[k])
  {
    if l.Work? && l.key in x.workers {
      AdvanceOwnKey(x.store, l.key, x.workers[l.key], l.env);
    }
  }

  lemma SameOtherLabel(x: State, y: State, k: Key, l: Label)
    requires Same(x, y, k) && Independent(l, k) && !Concerns(l, k)
    ensures Same(Next(x, l), y, k)
  {
    OtherLabelKeeps(x, k, l);
    var nxt := Next(x, l);
    assert BindingAt(nxt.store, k) == BindingAt(x.store, k) && ObjectAt(nxt.store, k) == ObjectAt(x.store, k);
    assert k in nxt.store.bindings <==> BindingAt(nxt.store, k).Some?;
    assert k in nxt.store.rbs <==> ObjectAt(nxt.store, k).Some?;
  }

  /** What an interleaved run makes of a key - role, owners and subjects of its object, its binding with spec,
      generation and status, and where its reconcile stands - is what the labels of that key alone make of it:
      reconciles, crashes, faults, edits, deletions and foreign changes of other keys do not matter. */
  lemma {:induction false} KeysDoNotInterfere(st: State, ls: seq<Label>, k: Key)
    requires Fresh(st) && forall i :: 0 <= i < |ls| ==> Independent(ls[i], k)
    ensures Same(Exec(st, ls), Exec(st, Own(ls, k)), k)
    ensures Fresh(Exec(st, ls)) && Fresh(Exec(st, Own(ls, k)))
    decreases |ls|
  {
    if ls != [] {
      var front, l := ls[..|ls| - 1], ls[|ls| - 1];
      assert forall i :: 0 <= i < |front| ==> front[i] == ls[i];
      KeysDoNotInterfere(st, front, k);
      var x, y := Exec(st, front), Exec(st, Own(front, k));
      FreshStep(x, l);
      if Concerns(l, k) {
        assert Own(ls, k) == Own(front, k) + [l];
        ExecSnoc(st, Own(front, k), l);
        FreshStep(y, l);
        SameOwnLabel(x, y, k, l);
      } else {
        assert Own(ls, k) == Own(front, k) + [] == Own(front, k);
        SameOtherLabel(x, y, k, l);
      }
    }
  }

  // ---------- Whole reconciles ----------

  /** Of the labels of k, the first begins its reconcile and the others are its steps, and it has ended. */
  ghost predicate OneReconcile(st: State, ls: seq<Label>, k: Key, env: Env) {
    var own := Own(ls, k);
    && own != [] && own[0] == Begin(k) && (forall i :: 1 <= i < |own| ==> own[i] == Work(k, env))
    && k !in Exec(st, ls).workers
  }

  /** Steps until the reconcile ends are Drive. */
  lemma {:induction false} StepsAreDrive(st: State, ls: seq<Label>, k: Key, env: Env)
    requires k in st.workers && !st.workers[k].Finished? && forall i :: 0 <= i < |ls| ==> ls[i] == Work(k, env)
    requires k !in Exec(st, ls).workers
    ensures Exec(st, ls).store == Drive(st.store, k, st.workers[k], env).0
    decreases |ls|
  {
    assert ls != [];
    var head, rest := [ls[0]], ls[1..];
    assert ls == head + rest;
    ExecConcat(st, head, rest);
    ExecSnoc(st, [], Work(k, env));
    assert [] + [Work(k, env)] == head;
    var nxt := Next(st, Work(k, env));
    var (s', p') := Advance(st.store, k, st.workers[k], env);
    assert Drive(st.store, k, st.workers[k], env) == Drive(s', k, p', env);
    if p'.Finished? {
      IdleSteps(nxt, rest, k, env);
    } else {
      StepsAreDrive(nxt, rest, k, env);
    }
  }

  lemma {:induction false} IdleSteps(st: State, ls: seq<Label>, k: Key, env: Env)
    requires k !in st.workers && forall i :: 0 <= i < |ls| ==> ls[i] == Work(k, env)
    ensures Exec(st, ls) == st
    decreases |ls|
  {
    if ls != [] {
      IdleSteps(st, ls[..|ls| - 1], k, env);
    }
  }

  /** In every interleaving with anything else of other keys, a whole reconcile leaves its object and its binding
      as it would leave them alone. */
  lemma InterleavedIsDrive(st: State, ls: seq<Label>, k: Key, env: Env)
    requires Fresh(st) && k !in st.workers && forall i :: 0 <= i < |ls| ==> Independent(ls[i], k)
    requires OneReconcile(st, ls, k, env)
    ensures SameStore(Exec(st, ls).store, Drive(st.store, k, Start, env).0, k)
  {
    KeysDoNotInterfere(st, ls, k);
    var own := Own(ls, k);
    var head, rest := [own[0]], own[1..];
    assert own == head + rest;
    ExecConcat(st, head, rest);
    ExecSnoc(st, [], Begin(k));
    assert [] + [Begin(k)] == head;
    StepsAreDrive(Next(st, Begin(k)), rest, k, env);
  }

  /** Convergence under interleaving: an error-free reconcile leaves the desired role, owner and subjects whatever
      is done to other keys between its calls. */
  lemma ConvergesInterleaved(st: State, ls: seq<Label>, k: Key, members: seq<string>, env: Env)
    requires Fresh(st) && k !in st.workers && forall i :: 0 <= i < |ls| ==> Independent(ls[i], k)
    requires OneReconcile(st, ls, k, env) && ProviderKnown(st.store, k) && Clean(env, members)
    ensures var after := RbacAt(Exec(st, ls).store, k);
      after.Some? && Matches(after.value, Desired(k, st.store.bindings[k], members))
    ensures var s := Exec(st, ls).store; k in s.bindings && ReadyCurrent(s.bindings[k])
  {
    InterleavedIsDrive(st, ls, k, env);
    Converges(st.store, k, members, env);
    StatusTellsOutcome(st.store, k, env);
    DriveOwnKey(st.store, k, Start, env);
    var s, t := Exec(st, ls).store, Drive(st.store, k, Start, env).0;
    assert EraseBinding(s.bindings[k]) == EraseBinding(t.bindings[k]);
  }

  /** The run consists of one whole reconcile for each request and nothing else. */
  ghost predicate Interleaves(st: State, ls: seq<Label>, reqs: seq<Request>) {
    && (forall i :: 0 <= i < |ls| ==>
          (ls[i].Begin? || ls[i].Work?) && exists j :: 0 <= j < |reqs| && reqs[j].key == ls[i].key)
    && (forall j :: 0 <= j < |reqs| ==> OneReconcile(st, ls, reqs[j].key, reqs[j].env))
  }

  lemma {:induction false} NothingOwn(ls: seq<Label>, k: Key)
    requires forall i :: 0 <= i < |ls| ==> !Concerns(ls[i], k)
    ensures Own(ls, k) == []
    decreases |ls|
  {
    if ls != [] {
      NothingOwn(ls[..|ls| - 1], k);
    }
  }

  lemma InterleavedEffect(st: State, ls: seq<Label>, r: Request)
    requires Fresh(st) && r.key !in st.workers && forall i :: 0 <= i < |ls| ==> Independent(ls[i], r.key)
    requires OneReconcile(st, ls, r.key, r.env)
    ensures RbacAt(Exec(st, ls).store, r.key) == Effect(st.store, r)
  {
    InterleavedIsDrive(st, ls, r.key, r.env);
    DriveContent(st.store, r.key, r.env);
  }

  lemma UntouchedKeeps(st: State, ls: seq<Label>, k: Key)
    requires Fresh(st) && forall i :: 0 <= i < |ls| ==> Independent(ls[i], k) && !Concerns(ls[i], k)
    ensures RbacAt(Exec(st, ls).store, k) == RbacAt(st.store, k)
  {
    NothingOwn(ls, k);
    KeysDoNotInterfere(st, ls, k);
  }

  /** Every interleaving, call by call, of one reconcile per key, with any faults, leaves every key with the content
      that running the reconciles one after the other leaves. */
  lemma InterleavingRefinesBatch(st: State, ls: seq<Label>, reqs: seq<Request>, k: Key)
    requires Fresh(st) && st.workers == map[] && DistinctKeys(reqs) && Interleaves(st, ls, reqs)
    ensures RbacAt(Exec(st, ls).store, k) == RbacAt(RunAll(st.store, reqs), k)
  {
    BatchIsPointwise(st.store, reqs);
    if j :| 0 <= j < |reqs| && reqs[j].key == k {
      InterleavedEffect(st, ls, reqs[j]);
    } else {
      UntouchedKeeps(st, ls, k);
    }
  }
}
