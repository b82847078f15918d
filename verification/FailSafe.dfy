/** The fail-safe contract and adoption, as statements about whole interleaved runs. */
module FailSafe {
  import opened Api
  import C = Conditions
  import opened RbacSync
  import opened Protocol
  import opened Convergence
  import opened Runs

  // ---------- A run in which no reconcile of k resolves its members ----------

  /** At no moment of the run does a reconcile of k hold resolved members: each one so far has met a failed
      read, a missing provider, a grouper failure, a failed query or a missing group. */
  ghost predicate NeverResolved(st: State, ls: seq<Label>, k: Key) {
    forall i: nat :: i <= |ls| ==> Unresolved(At(st, ls, i), k)
  }

  ghost predicate Unresolved(st: State, k: Key) {
    !(k in st.workers && PastResolution(st.workers[k]))
  }

  lemma NeverResolvedFront(st: State, front: seq<Label>, l: Label, k: Key)
    requires NeverResolved(st, front + [l], k)
    ensures NeverResolved(st, front, k)
    ensures Unresolved(Exec(st, front), k)
  {
    forall i: nat | i <= |front| ensures Unresolved(At(st, front, i), k) {
      PrefixAt(st, front, l, i);
    }
    LastAt(st, front);
  }

  /** An unresolved reconcile keeps every RBAC object. */
  lemma UnresolvedKeepsRbac(s: Store, k: Key, p: Local, env: Env)
    requires !PastResolution(p)
    ensures Advance(s, k, p, env).0.rbs == s.rbs
  {
  }

  /** What it writes to the status leaves the summary alone. */
  lemma UnresolvedKeepsSummary(s: Store, k: Key, p: Local, env: Env)
    requires !PastResolution(p)
    requires k in s.bindings && Carries(p) && s.bindings[k].version == p.b.version ==> s.bindings[k] == p.b
    ensures var s' := Advance(s, k, p, env).0;
      k in s.bindings ==> s'.bindings[k].status.summary == s.bindings[k].status.summary
  {
  }

  /** The binding stored for k is the one of the start with its summary untouched, or a later one. */
  ghost predicate SummaryKept(st: State, cur: State, k: Key) {
    st.store.clock <= cur.store.clock &&
    (k in cur.store.bindings ==>
      var b := cur.store.bindings[k];
      || b.uid >= st.store.clock
      || (k in st.store.bindings && b.uid == st.store.bindings[k].uid
          && b.status.summary == st.store.bindings[k].status.summary))
  }

  lemma SummaryKeptStep(st: State, cur: State, l: Label, k: Key)
    requires SummaryKept(st, cur, k) && VersionsOk(cur)
    requires Unresolved(cur, k)
    ensures SummaryKept(st, Next(cur, l), k)
  {
    if l.Work? && l.key in cur.workers {
      var p := cur.workers[l.key];
      AdvanceShape(cur.store, l.key, p, l.env);
      var s' := Advance(cur.store, l.key, p, l.env).0;
      if l.key == k {
        UnresolvedKeepsSummary(cur.store, k, p, l.env);
      } else {
        assert BindingAt(s', k) == BindingAt(cur.store, k);
      }
    }
  }

  /** No reconcile that ends in failure changes the summary of its binding, whatever else happens around it:
      other bindings syncing, edits, deletion and re-creation, drift, collection, API faults, crashes. */
  lemma {:induction false} FailuresKeepSummary(st: State, ls: seq<Label>, k: Key)
    requires VersionsOk(st) && NeverResolved(st, ls, k)
    ensures SummaryKept(st, Exec(st, ls), k) && VersionsOk(Exec(st, ls))
    decreases |ls|
  {
    if ls != [] {
      var front, l := ls[..|ls| - 1], ls[|ls| - 1];
      assert ls == front + [l];
      NeverResolvedFront(st, front, l, k);
      FailuresKeepSummary(st, front, k);
      SummaryKeptStep(st, Exec(st, front), l, k);
      VersionsStep(Exec(st, front), l);
    }
  }

  /** The object of k is there unchanged and still owned by the live binding k. */
  ghost predicate AccessKept(st: State, cur: State, k: Key) {
    && k in st.store.rbs && k in cur.store.rbs && cur.store.rbs[k] == st.store.rbs[k]
    && k in st.store.bindings && k in cur.store.bindings && cur.store.bindings[k].uid == st.store.bindings[k].uid
  }

  lemma AccessKeptStep(st: State, cur: State, l: Label, k: Key)
    requires AccessKept(st, cur, k) && ControllerRef(k, st.store.bindings[k]) in st.store.rbs[k].content.owners
    requires Unresolved(cur, k)
    requires l != DeleteBinding(k) && !(l.Drift? && l.key == k)
    ensures AccessKept(st, Next(cur, l), k)
  {
    if l.Work? && l.key in cur.workers {
      var p := cur.workers[l.key];
      AdvanceOwnKey(cur.store, l.key, p, l.env);
      if l.key == k {
        UnresolvedKeepsRbac(cur.store, k, p, l.env);
      } else {
        assert BindingAt(Advance(cur.store, l.key, p, l.env).0, k) == BindingAt(cur.store, k);
      }
    } else if l == Collect(k) {
      assert UidLive(cur.store, ControllerRef(k, st.store.bindings[k]).uid);
    }
  }

  /** The documented fail-safe contract: while no reconcile of a live binding resolves its members, its managed
      object stays exactly as it is, through any number of failing reconciles, with the collector and every
      other binding still running. */
  lemma {:induction false} FailuresKeepAccess(st: State, ls: seq<Label>, k: Key)
    requires k in st.store.bindings && k in st.store.rbs
    requires ControllerRef(k, st.store.bindings[k]) in st.store.rbs[k].content.owners
    requires NeverResolved(st, ls, k)
    requires forall i :: 0 <= i < |ls| ==> ls[i] != DeleteBinding(k) && !(ls[i].Drift? && ls[i].key == k)
    ensures AccessKept(st, Exec(st, ls), k)
    decreases |ls|
  {
    if ls != [] {
      var front, l := ls[..|ls| - 1], ls[|ls| - 1];
      assert ls == front + [l];
      NeverResolvedFront(st, front, l, k);
      assert forall i :: 0 <= i < |front| ==> front[i] == ls[i];
      FailuresKeepAccess(st, front, k);
      AccessKeptStep(st, Exec(st, front), l, k);
    }
  }

  /** The directory never answers with members. */
  ghost predicate Outage(ls: seq<Label>) {
    forall i :: 0 <= i < |ls| && ls[i].Work? ==> !ls[i].env.answer.Members?
  }

  /** If nobody holds resolved members when an outage starts, nobody does while it lasts. */
  lemma {:induction false} OutageNeverResolves(st: State, ls: seq<Label>, k: Key)
    requires Outage(ls) && Unresolved(st, k)
    ensures NeverResolved(st, ls, k)
    ensures Unresolved(Exec(st, ls), k)
    decreases |ls|
  {
    if ls == [] {
      assert At(st, ls, 0) == st;
    } else {
      var front, l := ls[..|ls| - 1], ls[|ls| - 1];
      assert ls == front + [l];
      OutageNeverResolves(st, front, k);
      var cur := Exec(st, front);
      if l.Work? && l.key in cur.workers {
        ResolutionShape(cur.store, l.key, cur.workers[l.key], l.env);
      }
      forall i: nat | i <= |ls| ensures Unresolved(At(st, ls, i), k) {
        if i < |ls| {
          PrefixAt(st, front, l, i);
        } else {
          LastAt(st, ls);
        }
      }
    }
  }

  /** A run of any length in which no reconcile of any key resolves its members, for whatever reason, leaves the
      whole RBAC store as it was, as long as nobody but the operator touches it. OutageNeverResolves makes a
      directory outage the special case. */
  lemma {:induction false} OutageKeepsRbacStore(st: State, ls: seq<Label>)
    requires forall k :: NeverResolved(st, ls, k)
    requires forall i :: 0 <= i < |ls| ==> !ls[i].Drift? && !ls[i].Collect?
    ensures Exec(st, ls).store.rbs == st.store.rbs
    decreases |ls|
  {
    if ls != [] {
      var front, l := ls[..|ls| - 1], ls[|ls| - 1];
      assert ls == front + [l];
      forall k ensures NeverResolved(st, front, k) {
        NeverResolvedFront(st, front, l, k);
      }
      OutageKeepsRbacStore(st, front);
      var cur := Exec(st, front);
      if l.Work? && l.key in cur.workers {
        NeverResolvedFront(st, front, l, l.key);
        UnresolvedKeepsRbac(cur.store, l.key, cur.workers[l.key], l.env);
      }
    }
  }

  // ---------- Adoption ----------

  /** The object of k is, right now, the desired one for b and some member list. */
  ghost predicate Managed(s: Store, k: Key, b: Binding) {
    k in s.rbs && exists members: seq<string> :: Matches(s.rbs[k].content, Desired(k, b, members))
  }

  ghost predicate ManagedKey(st: State, k: Key) {
    && (k in st.workers && st.workers[k].Stale? ==>
          st.workers[k].existing.content.roleRef == DesiredRole(st.workers[k].b.spec.role))
    && (k in st.store.bindings && k in st.workers && st.workers[k].Synced?
        && st.workers[k].b.version == st.store.bindings[k].version ==>
          Managed(st.store, k, st.store.bindings[k]))
    && (k in st.store.bindings && ReadyCurrent(st.store.bindings[k]) ==>
          var b := st.store.bindings[k];
          && Managed(st.store, k, b)
          && (k in st.workers && Carries(st.workers[k]) ==>
                var p := st.workers[k];
                SameVersion(p.b, b) && !p.Absent? && !p.Differs? && !p.Deleted?))
  }

  lemma ManagedIsOwned(s: Store, k: Key, b: Binding)
    requires Managed(s, k, b)
    ensures s.rbs[k].content.owners == [ControllerRef(k, b)]
    ensures s.rbs[k].content.roleRef == DesiredRole(b.spec.role)
  {
  }

  lemma SameVersionSameDesired(s: Store, k: Key, a: Binding, b: Binding)
    requires SameVersion(a, b) && Managed(s, k, a)
    ensures Managed(s, k, b)
  {
    var members: seq<string> :| Matches(s.rbs[k].content, Desired(k, a, members));
    assert Desired(k, a, members) == Desired(k, b, members);
  }

  /** What a step of k does to the object of k, in the terms adoption needs. */
  lemma RbStepShape(s: Store, k: Key, p: Local, env: Env)
    requires p.Stale? ==> p.existing.content.roleRef == DesiredRole(p.b.spec.role)
    ensures RbShape(s, k, p, Advance(s, k, p, env).0, Advance(s, k, p, env).1)
  {
    var (s', p') := Advance(s, k, p, env);
    if PastResolution(p) && k in s'.rbs && (p'.Synced? || (p.Stale? && s'.rbs != s.rbs)) {
      assert Matches(s'.rbs[k].content, Desired(k, p.b, p.members));
    }
  }

  /** Its own step keeps the adoption invariant of k. Stated over the shapes of a step only. */
  lemma ManagedOwnStep(st: State, k: Key, env: Env)
    requires VersionsOk(st) && AllConditionsOk(st) && ManagedKey(st, k) && k in st.workers
    ensures var (s', p') := Advance(st.store, k, st.workers[k], env); ManagedKey(AfterWork(st, k, s', p'), k)
  {
    var s, p := st.store, st.workers[k];
    var (s', p') := Advance(s, k, p, env);
    AdvanceShape(s, k, p, env);
    RbStepShape(s, k, p, env);
    ManagedFromShapes(st, k, p, env.now, s', p');
  }

  ghost predicate RbShape(s: Store, k: Key, p: Local, s': Store, p': Local) {
    && (s'.rbs == s.rbs || p.Absent? || p.Differs? || p.Deleted? || (p.Stale? && Managed(s', k, p.b)))
    && (p'.Synced? ==> Managed(s', k, p'.b) && s'.bindings == s.bindings)
    && (p'.Stale? ==> p'.existing.content.roleRef == DesiredRole(p'.b.spec.role))
    && (p'.Absent? ==> k !in s.rbs)
    && (p'.Differs? ==> k in s.rbs && s.rbs[k].content.roleRef != DesiredRole(p'.b.spec.role))
    && (p'.Deleted? ==> p.Differs?)
  }

  lemma ManagedFromShapes(st: State, k: Key, p: Local, now: nat, s': Store, p': Local)
    requires VersionsOk(st) && AllConditionsOk(st) && ManagedKey(st, k) && k in st.workers && p == st.workers[k]
    requires StepShape(st.store, k, p, now, s', p') && RbShape(st.store, k, p, s', p')
    ensures ManagedKey(AfterWork(st, k, s', p'), k)
  {
    if k in s'.bindings {
      if s'.bindings[k] == st.store.bindings[k] {
        ManagedUnwritten(st, k, p, now, s', p');
      } else {
        ManagedWritten(st, k, p, now, s', p');
      }
    }
  }

  /** The step wrote no status. */
  lemma ManagedUnwritten(st: State, k: Key, p: Local, now: nat, s': Store, p': Local)
    requires VersionsOk(st) && ManagedKey(st, k) && k in st.workers && p == st.workers[k]
    requires StepShape(st.store, k, p, now, s', p') && RbShape(st.store, k, p, s', p')
    requires k in st.store.bindings && k in s'.bindings && s'.bindings[k] == st.store.bindings[k]
    ensures ManagedKey(AfterWork(st, k, s', p'), k)
  {
    var s, b := st.store, st.store.bindings[k];
    if ReadyCurrent(b) && p.Stale? && s'.rbs != s.rbs {
      SameVersionSameDesired(s', k, p.b, b);
    }
  }

  /** The step wrote the status, so what it had read is what is stored. */
  lemma ManagedWritten(st: State, k: Key, p: Local, now: nat, s': Store, p': Local)
    requires VersionsOk(st) && AllConditionsOk(st) && ManagedKey(st, k) && k in st.workers && p == st.workers[k]
    requires StepShape(st.store, k, p, now, s', p') && RbShape(st.store, k, p, s', p')
    requires k in st.store.bindings && k in s'.bindings && s'.bindings[k] != st.store.bindings[k]
    ensures ManagedKey(AfterWork(st, k, s', p'), k)
  {
    var b, b' := st.store.bindings[k], s'.bindings[k];
    assert p.b == b && p'.Finished?;
    MarkedConditions(k, p, now, b'.status);
    if ReadyCurrent(b') {
      assert p.Synced? && s'.rbs == st.store.rbs;
      SameVersionSameDesired(s', k, b, b');
    }
  }

  lemma ManagedOtherWork(st: State, k: Key, j: Key, s': Store, p': Local)
    requires VersionsOk(st) && ManagedKey(st, k) && j != k && OnlyKeyChanged(st.store, s', j)
    ensures ManagedKey(AfterWork(st, j, s', p'), k)
  {
    assert BindingAt(s', k) == BindingAt(st.store, k);
    assert k in st.store.rbs ==> s'.rbs[k] == st.store.rbs[k];
  }

  lemma ManagedCollect(st: State, j: Key, k: Key)
    requires VersionsOk(st) && ManagedKey(st, k)
    ensures ManagedKey(Next(st, Collect(j)), k)
  {
    if j == k && k in st.store.bindings && Managed(st.store, k, st.store.bindings[k]) {
      ManagedIsOwned(st.store, k, st.store.bindings[k]);
      assert UidLive(st.store, ControllerRef(k, st.store.bindings[k]).uid);
    }
  }

  /** Neither the worker nor the object of k changed, and the binding at most in its spec or by going away. */
  ghost predicate ManagedFrame(st: State, nxt: State, k: Key) {
    && ObjectAt(nxt.store, k) == ObjectAt(st.store, k)
    && (k in nxt.workers ==> (k in st.workers && nxt.workers[k] == st.workers[k]) || nxt.workers[k].Start?)
    && (k in nxt.store.bindings ==>
          var b := nxt.store.bindings[k];
          || (k in st.store.bindings && b == st.store.bindings[k])
          || (b.version >= st.store.clock && !ReadyCurrent(b)))
  }

  lemma ManagedFramed(st: State, nxt: State, k: Key)
    requires VersionsOk(st) && ManagedKey(st, k) && ManagedFrame(st, nxt, k)
    ensures ManagedKey(nxt, k)
  {
    assert ObjectAt(nxt.store, k) == ObjectAt(st.store, k);
  }

  lemma DriftFrame(st: State, j: Key, content: Option<Content>, k: Key)
    requires j != k
    ensures ManagedFrame(st, Next(st, Drift(j, content)), k)
  {
  }

  lemma BindingFrame(st: State, l: Label, k: Key)
    requires VersionsOk(st) && (l.CreateBinding? || l.EditSpec? || l.DeleteBinding?)
    ensures ManagedFrame(st, Next(st, l), k)
  {
    assert C.Find(EMPTY_STATUS.conditions, Ready) == None;
  }

  lemma WorkerFrame(st: State, l: Label, k: Key)
    requires l.Begin? || l.Crash? || l.SetProviders?
    ensures ManagedFrame(st, Next(st, l), k)
  {
  }

  lemma ManagedOtherStep(st: State, l: Label, k: Key)
    requires VersionsOk(st) && ManagedKey(st, k) && !((l.Drift? || l.Work?) && l.key == k)
    ensures ManagedKey(Next(st, l), k)
  {
    if l.Work? {
      if l.key in st.workers {
        AdvanceOwnKey(st.store, l.key, st.workers[l.key], l.env);
        var (s', p') := Advance(st.store, l.key, st.workers[l.key], l.env);
        ManagedOtherWork(st, k, l.key, s', p');
        assert Next(st, l) == AfterWork(st, l.key, s', p');
      }
    } else if l.Collect? {
      ManagedCollect(st, l.key, k);
    } else {
      if l.Drift? {
        DriftFrame(st, l.key, l.content, k);
      } else if l.CreateBinding? || l.EditSpec? || l.DeleteBinding? {
        BindingFrame(st, l, k);
      } else {
        WorkerFrame(st, l, k);
      }
      ManagedFramed(st, Next(st, l), k);
    }
  }

  lemma {:induction false} ManagedAlways(st: State, ls: seq<Label>, k: Key)
    requires Init(st) && forall i :: 0 <= i < |ls| ==> !(ls[i].Drift? && ls[i].key == k)
    ensures ManagedKey(Exec(st, ls), k)
    decreases |ls|
  {
    if ls == [] {
      assert C.Find(EMPTY_STATUS.conditions, Ready) == None;
    } else {
      var front, l := ls[..|ls| - 1], ls[|ls| - 1];
      assert ls == front + [l];
      ManagedAlways(st, front, k);
      VersionsAlways(st, front);
      ConditionsAlways(st, front);
      var cur := Exec(st, front);
      if l.Work? && l.key == k {
        if k in cur.workers {
          ManagedOwnStep(cur, k, l.env);
          var (s', p') := Advance(cur.store, k, cur.workers[k], l.env);
          assert Next(cur, l) == AfterWork(cur, k, s', p');
        }
      } else {
        ManagedOtherStep(cur, l, k);
      }
    }
  }

  /** In every reachable state of every run in which only the operator and the collector touch the object of k -
      with foreign edits of every other object, bindings deleted and re-created under the same name, spec edits,
      faults and crashes at any call - Ready=True for the current generation means that the managed object exists
      right now, with the role of the stored spec, owned by exactly the stored binding and by no earlier one of
      the same name, and that the collector cannot remove it. */
  lemma ReadyIsManagedAndSafe(st: State, ls: seq<Label>, k: Key)
    requires Init(st) && forall i :: 0 <= i < |ls| ==> !(ls[i].Drift? && ls[i].key == k)
    requires k in Exec(st, ls).store.bindings && ReadyCurrent(Exec(st, ls).store.bindings[k])
    ensures var s := Exec(st, ls).store;
      && Managed(s, k, s.bindings[k])
      && s.rbs[k].content.owners == [ControllerRef(k, s.bindings[k])]
      && !Collectable(s, k)
  {
    ManagedAlways(st, ls, k);
    var s := Exec(st, ls).store;
    ManagedIsOwned(s, k, s.bindings[k]);
    assert ControllerRef(k, s.bindings[k]) in s.rbs[k].content.owners;
    assert UidLive(s, ControllerRef(k, s.bindings[k]).uid);
  }

  // ---------- Provenance ----------

  /** The content is the one that BuildRoleBinding asks for, for a binding that the reconcile of k in flight has read
      and the member list that it was then answered with. */
  ghost predicate GrantedBy(st: State, ls: seq<Label>, k: Key, c: Content) {
    exists b: Binding, members: seq<string> :: WasResolved(st, ls, k, b, members) && c == Desired(k, b, members)
  }

  /** That holds after some prefix of the run. */
  ghost predicate Granted(st: State, ls: seq<Label>, k: Key, c: Content) {
    exists prefix: seq<Label> :: prefix <= ls && GrantedBy(st, prefix, k, c)
  }

  ghost predicate Provenance(st: State, ls: seq<Label>, k: Key) {
    k in Exec(st, ls).store.rbs ==>
      var o := Exec(st, ls).store.rbs[k];
      ObjectAt(st.store, k) == Some(o) || Granted(st, ls, k, o.content)
  }

  lemma GrantedGrows(st: State, ls: seq<Label>, l: Label, k: Key, c: Content)
    requires Granted(st, ls, k, c)
    ensures Granted(st, ls + [l], k, c)
  {
    var prefix :| prefix <= ls && GrantedBy(st, prefix, k, c);
    assert prefix <= ls + [l];
  }

  lemma GrantedNow(st: State, ls: seq<Label>, l: Label, k: Key, b: Binding, members: seq<string>)
    requires WasResolved(st, ls, k, b, members)
    ensures Granted(st, ls + [l], k, Desired(k, b, members))
  {
    assert GrantedBy(st, ls, k, Desired(k, b, members));
    assert ls <= ls + [l];
  }

  /** What a reconcile writes is the desired object of what it read and was answered. */
  lemma WritesDesired(s: Store, k: Key, p: Local, env: Env)
    requires p.Stale? ==> p.existing.content.roleRef == DesiredRole(p.b.spec.role)
    ensures var s' := Advance(s, k, p, env).0;
      k in s'.rbs && ObjectAt(s', k) != ObjectAt(s, k) ==>
        PastResolution(p) && s'.rbs[k].content == Desired(k, p.b, p.members)
  {
  }

  /** Only a step of k or a foreign edit of k puts something new under k. */
  lemma OthersPutNothing(st: State, l: Label, k: Key)
    requires !((l.Work? || l.Drift?) && l.key == k) && k in Next(st, l).store.rbs
    ensures ObjectAt(Next(st, l).store, k) == ObjectAt(st.store, k)
  {
    if l.Work? && l.key in st.workers {
      AdvanceOwnKey(st.store, l.key, st.workers[l.key], l.env);
    }
  }

  /** Who holds access, at every moment and not only while Ready: in every run in which nobody but the operator and
      the collector touches the object of k, that object is the one the run started with, or it grants exactly
      the role of a spec that some reconcile of k read to exactly the members that the directory answered that
      same reconcile with. Nothing else is ever written, whatever fails, crashes or interleaves. */
  lemma {:induction false} AccessHasProvenance(st: State, ls: seq<Label>, k: Key)
    requires Init(st) && forall i :: 0 <= i < |ls| ==> !(ls[i].Drift? && ls[i].key == k)
    ensures Provenance(st, ls, k)
    decreases |ls|
  {
    if ls != [] && k in Exec(st, ls).store.rbs {
      var front, l := ls[..|ls| - 1], ls[|ls| - 1];
      assert ls == front + [l];
      assert forall i :: 0 <= i < |front| ==> front[i] == ls[i];
      AccessHasProvenance(st, front, k);
      var cur := Exec(st, front);
      if ObjectAt(Exec(st, ls).store, k) == ObjectAt(cur.store, k) {
        if ObjectAt(st.store, k) != Some(cur.store.rbs[k]) {
          GrantedGrows(st, front, l, k, cur.store.rbs[k].content);
        }
      } else {
        if !l.Work? || l.key != k {
          OthersPutNothing(cur, l, k);
        }
        HistoryAlways(st, front);
        var p := cur.workers[k];
        WritesDesired(cur.store, k, p, l.env);
        GrantedNow(st, front, l, k, p.b, p.members);
      }
    }
  }

  /** Whatever owner was left behind, one error-free reconcile makes the live binding the only owner. */
  lemma Adopts(s: Store, k: Key, members: seq<string>, env: Env)
    requires ProviderKnown(s, k) && Clean(env, members)
    ensures var s' := Drive(s, k, Start, env).0;
      k in s'.rbs && s'.rbs[k].content.owners == [ControllerRef(k, s.bindings[k])] && !Collectable(s', k)
  {
    var s' := Drive(s, k, Start, env).0;
    Converges(s, k, members, env);
    DriveOwnKey(s, k, Start, env);
    assert ControllerRef(k, s.bindings[k]) in s'.rbs[k].content.owners;
    assert UidLive(s', s.bindings[k].uid);
  }
}
