/** The provider loop interleaved with everything else that touches providers, references and limiters. */
module ProviderRuns {
  import opened Api
  import C = Conditions
  import P = Protocol
  import opened ProviderProtocol

  /** A binding reconcile that has read its binding, and so knows a provider name; and then has found that
      provider. Between that and drawing the limiter it reads Secrets. */
  datatype Drawer = Named(name: string) | Found(name: string)

  datatype State = State(store: Store, workers: map<string, Local>, drawers: map<Key, Drawer>)

  datatype Label =
    | Begin(name: string)
    | Work(name: string, env: Env)
    | Crash(name: string)
    | CreateProvider(name: string)
    | EditProvider(name: string)
    | DeleteProvider(name: string)
    | SetRef(key: Key, name: string)
    | DropRef(key: Key)
    | ReadBinding(key: Key)
    | ReadProvider(key: Key)
    | Draw(key: Key)
    | Abandon(key: Key)

  /** The last four labels are the steps of a binding reconcile: it reads its binding, then the provider that names,
      then draws the limiter; or it ends before that. */
  function Next(st: State, l: Label): State {
    var s := st.store;
    match l
    case Begin(n) => if n in st.workers then st else st.(workers := st.workers[n := Start])
    case Work(n, env) =>
      if n !in st.workers then st
      else
        var (s', p) := Advance(s, n, st.workers[n], env);
        st.(store := s', workers := if p.Finished? then st.workers - {n} else st.workers[n := p])
    case Crash(n) => st.(workers := st.workers - {n})
    case CreateProvider(n) =>
      if n in s.providers then st
      else st.(store := s.(providers := s.providers[n := Provider(s.clock, 1, s.clock, false, false, 0, None, [])],
                           clock := s.clock + 1))
    case EditProvider(n) =>
      if n !in s.providers then st
      else
        var p := s.providers[n];
        st.(store := s.(providers := s.providers[n := p.(generation := p.generation + 1, version := s.clock)],
                        clock := s.clock + 1))
    case DeleteProvider(n) =>
      if n !in s.providers || s.providers[n].terminating then st
      else if s.providers[n].finalizer then
        st.(store := s.(providers := s.providers[n := s.providers[n].(terminating := true, version := s.clock)],
                        clock := s.clock + 1))
      else st.(store := s.(providers := s.providers - {n}))
    case SetRef(k, n) => st.(store := s.(refs := s.refs[k := n]))
    case DropRef(k) => st.(store := s.(refs := s.refs - {k}))
    case ReadBinding(k) =>
      if k in s.refs && k !in st.drawers then st.(drawers := st.drawers[k := Named(s.refs[k])]) else st
    case ReadProvider(k) =>
      if k !in st.drawers || st.drawers[k].Found? then st
      else if st.drawers[k].name in s.providers then st.(drawers := st.drawers[k := Found(st.drawers[k].name)])
      else st.(drawers := st.drawers - {k})
    case Draw(k) =>
      if k !in st.drawers || st.drawers[k].Named? then st
      else st.(store := s.(limiters := s.limiters + {st.drawers[k].name}), drawers := st.drawers - {k})
    case Abandon(k) => st.(drawers := st.drawers - {k})
  }

  function Exec(st: State, ls: seq<Label>): State
    decreases |ls|
  {
    if ls == [] then st else Next(Exec(st, ls[..|ls| - 1]), ls[|ls| - 1])
  }

  /** No reconcile in flight, no condition ever set, limiters only for existing providers. */
  ghost predicate Init(st: State) {
    && st.workers == map[] && st.drawers == map[]
    && st.store.limiters <= st.store.providers.Keys
    && (forall n :: n in st.store.providers ==>
          var p := st.store.providers[n];
          p.version < st.store.clock && p.conditions == [] && p.lastVerifiedTime == None)
  }

  predicate HasCopy(l: Local) {
    !l.Start? && !l.Finished?
  }

  /** resourceVersions identify what was read; both lists are checked on a terminating provider only. */
  ghost predicate CopiesOk(st: State) {
    && (forall n :: n in st.store.providers ==> st.store.providers[n].version < st.store.clock)
    && (forall n :: n in st.workers && HasCopy(st.workers[n]) ==>
          var p := st.workers[n].p;
          && p.version < st.store.clock
          && (Current(st.store, n, p) ==> st.store.providers[n] == p)
          && (Finalizing(st.workers[n]) ==> p.terminating))
    && (forall n :: n in st.workers ==> !st.workers[n].Finished?)
  }

  predicate Listing(l: Local) {
    l.ListingBindings? || l.ListingClusterBindings?
  }

  predicate Finalizing(l: Local) {
    Listing(l) || l.Releasing? || l.Removing?
  }

  /** Labels that write provider objects without being a step of the loop. */
  predicate EditsProvider(l: Label) {
    l.CreateProvider? || l.EditProvider? || l.DeleteProvider?
  }

  lemma CopiesProviderStep(st: State, l: Label)
    requires CopiesOk(st) && EditsProvider(l)
    ensures CopiesOk(Next(st, l))
  {
  }

  lemma CopiesOtherStep(st: State, l: Label)
    requires CopiesOk(st) && !l.Work? && !EditsProvider(l)
    ensures CopiesOk(Next(st, l))
  {
  }

  /** What a step of the loop can do to the stored providers and to its own copy. */
  ghost predicate CopyShape(s: Store, n: string, l: Local, s': Store, l': Local) {
    && s.clock <= s'.clock
    && (forall m :: m != n ==> (m in s'.providers <==> m in s.providers))
    && (forall m :: m != n && m in s.providers ==> s'.providers[m] == s.providers[m])
    && (n in s'.providers ==> n in s.providers)
    && (n in s'.providers ==>
          s'.providers[n] == s.providers[n] || s'.providers[n].version == s.clock < s'.clock)
    && (HasCopy(l') ==>
          || (HasCopy(l) && l'.p == l.p && s'.providers == s.providers && (Finalizing(l') ==> Finalizing(l)))
          || (n in s'.providers && l'.p == s'.providers[n] && (Finalizing(l') ==> l'.p.terminating)))
  }

  lemma AdvanceShape(s: Store, n: string, l: Local, env: Env)
    ensures CopyShape(s, n, l, Advance(s, n, l, env).0, Advance(s, n, l, env).1)
  {
  }

  lemma CopiesFromShape(st: State, n: string, s': Store, l': Local)
    requires CopiesOk(st) && n in st.workers && CopyShape(st.store, n, st.workers[n], s', l')
    ensures CopiesOk(st.(store := s', workers := if l'.Finished? then st.workers - {n} else st.workers[n := l']))
  {
  }

  lemma CopiesStep(st: State, l: Label)
    requires CopiesOk(st)
    ensures CopiesOk(Next(st, l))
  {
    if l.Work? {
      if l.name in st.workers {
        var (s', l') := Advance(st.store, l.name, st.workers[l.name], l.env);
        AdvanceShape(st.store, l.name, st.workers[l.name], l.env);
        CopiesFromShape(st, l.name, s', l');
      }
    } else if EditsProvider(l) {
      CopiesProviderStep(st, l);
    } else {
      CopiesOtherStep(st, l);
    }
  }

  // ---------- Finalizer safety ----------

  /** The label does not make k name the provider while that is terminating, unless k named it already. */
  predicate NoLateReference(st: State, l: Label, n: string, k: Key) {
    l == SetRef(k, n) && n in st.store.providers && st.store.providers[n].terminating ==> Names(st.store, k, n)
  }

  predicate Names(s: Store, k: Key, n: string) {
    k in s.refs && s.refs[k] == n
  }

  predicate NeverLate(st: State, ls: seq<Label>, n: string, k: Key)
    decreases |ls|
  {
    ls == [] ||
    (NeverLate(st, ls[..|ls| - 1], n, k) && NoLateReference(Exec(st, ls[..|ls| - 1]), ls[|ls| - 1], n, k))
  }

  /** Past the list of its kind, and the object read is still the stored one. */
  ghost predicate Cleared(st: State, n: string, k: Key) {
    n in st.workers && HasCopy(st.workers[n]) && Current(st.store, n, st.workers[n].p) &&
    var l := st.workers[n];
    l.Releasing? || l.Removing? || (l.ListingClusterBindings? && k.Namespaced?)
  }

  /** Since the reconcile in flight passed the list of k's kind, k was made to name the provider, and neither made
      to name another nor dropped after that. */
  ghost predicate Slipped(st: State, ls: seq<Label>, n: string, k: Key)
    decreases |ls|
  {
    ls != [] &&
    var front, l := ls[..|ls| - 1], ls[|ls| - 1];
    var cur := Exec(st, front);
    && Cleared(cur, n, k) && Cleared(Next(cur, l), n, k)
    && if l == SetRef(k, n) then true
       else if l == DropRef(k) || (l.SetRef? && l.key == k) then false
       else Slipped(st, front, n, k)
  }

  lemma NamesReferenced(s: Store, n: string, k: Key)
    ensures Names(s, k, n) ==> Referenced(s, n, k.ClusterWide?)
  {
  }

  /** The list of its kind tells the truth about k when it is taken. */
  lemma ListIsTrue(st: State, n: string, k: Key, env: Env)
    requires CopiesOk(st) && Cleared(Next(st, Work(n, env)), n, k) && !Cleared(st, n, k)
    ensures !Names(Next(st, Work(n, env)).store, k, n)
  {
    NamesReferenced(st.store, n, k);
  }

  lemma OwnStepKeepsRefs(st: State, n: string, env: Env)
    ensures Next(st, Work(n, env)).store.refs == st.store.refs
  {
  }

  lemma EditsDoNotClear(st: State, l: Label, n: string, k: Key)
    requires CopiesOk(st) && EditsProvider(l) && Cleared(Next(st, l), n, k)
    ensures Cleared(st, n, k)
  {
  }

  lemma OtherWorkDoesNotClear(st: State, m: string, env: Env, n: string, k: Key)
    requires m != n && Cleared(Next(st, Work(m, env)), n, k)
    ensures Cleared(st, n, k)
  {
    if m in st.workers {
      AdvanceShape(st.store, m, st.workers[m], env);
    }
  }

  lemma OthersDoNotClear(st: State, l: Label, n: string, k: Key)
    requires CopiesOk(st) && !(l.Work? && l.name == n) && Cleared(Next(st, l), n, k)
    ensures Cleared(st, n, k)
  {
    if l.Work? {
      OtherWorkDoesNotClear(st, l.name, l.env, n, k);
    } else if EditsProvider(l) {
      EditsDoNotClear(st, l, n, k);
    }
  }

  /** Past the list of its kind a binding names the provider exactly if the reference slipped in. */
  lemma {:induction false} NamesIffSlipped(st: State, ls: seq<Label>, n: string, k: Key)
    requires Init(st)
    ensures CopiesOk(Exec(st, ls))
    ensures Cleared(Exec(st, ls), n, k) ==> (Names(Exec(st, ls).store, k, n) <==> Slipped(st, ls, n, k))
    decreases |ls|
  {
    if ls != [] {
      var front, l := ls[..|ls| - 1], ls[|ls| - 1];
      NamesIffSlipped(st, front, n, k);
      var cur := Exec(st, front);
      CopiesStep(cur, l);
      if Cleared(Next(cur, l), n, k) {
        if l.Work? && l.name == n {
          OwnStepKeepsRefs(cur, n, l.env);
          if !Cleared(cur, n, k) {
            ListIsTrue(cur, n, k, l.env);
          }
        } else {
          OthersDoNotClear(cur, l, n, k);
          RefsShape(cur, l, n, k);
        }
      }
    }
  }

  lemma RefsShape(st: State, l: Label, n: string, k: Key)
    ensures Names(Next(st, l).store, k, n) <==>
      if l == SetRef(k, n) then true
      else if l == DropRef(k) || (l.SetRef? && l.key == k) then false
      else Names(st.store, k, n)
  {
  }

  /** A provider that carries the finalizer leaves the store only through its own reconcile. */
  lemma RemovedByFinalizeOnly(st: State, l: Label, n: string)
    requires n in st.store.providers && st.store.providers[n].finalizer && n !in Next(st, l).store.providers
    ensures l.Work? && l.name == n && n in st.workers && st.workers[n].Removing?
    ensures Current(st.store, n, st.workers[n].p)
    ensures Next(st, l).store.refs == st.store.refs
  {
  }

  /** In every run, when a provider that carries the finalizer leaves the store - the two lists and the removal being
      separate steps with anything in between - a binding is left naming it if and only if the reference
      was made after the list of its kind was taken, and was not withdrawn before the removal. */
  lemma FinalizerIsExact(st: State, ls: seq<Label>, l: Label, n: string, k: Key)
    requires Init(st)
    requires var cur := Exec(st, ls);
      n in cur.store.providers && cur.store.providers[n].finalizer && n !in Next(cur, l).store.providers
    ensures Names(Next(Exec(st, ls), l).store, k, n) <==> Slipped(st, ls, n, k)
  {
    NamesIffSlipped(st, ls, n, k);
    RemovedByFinalizeOnly(Exec(st, ls), l, n);
  }

  /** Such a reference is one that was made while the provider was already terminating. */
  lemma {:induction false} SlippedIsLate(st: State, ls: seq<Label>, n: string, k: Key)
    requires Init(st) && Slipped(st, ls, n, k)
    ensures !NeverLate(st, ls, n, k)
    decreases |ls|
  {
    var front, l := ls[..|ls| - 1], ls[|ls| - 1];
    NamesIffSlipped(st, front, n, k);
    if l != SetRef(k, n) || Names(Exec(st, front).store, k, n) {
      SlippedIsLate(st, front, n, k);
    }
  }

  /** So a provider that was never named anew while it was terminating leaves no binding behind. */
  lemma FinalizerIsSafe(st: State, ls: seq<Label>, l: Label, n: string, k: Key)
    requires Init(st)
    requires var cur := Exec(st, ls);
      n in cur.store.providers && cur.store.providers[n].finalizer && n !in Next(cur, l).store.providers
    ensures Names(Next(Exec(st, ls), l).store, k, n) ==> !NeverLate(st, ls, n, k)
  {
    FinalizerIsExact(st, ls, l, n, k);
    if Slipped(st, ls, n, k) {
      SlippedIsLate(st, ls, n, k);
    }
  }

  lemma ExecSnoc(st: State, ls: seq<Label>, l: Label)
    ensures Exec(st, ls + [l]) == Next(Exec(st, ls), l)
  {
    assert (ls + [l])[..|ls + [l]| - 1] == ls;
  }

  /** It does happen: a run exists in which a reference made after the list of its kind is left naming a provider that
      is gone. */
  lemma LateReferenceOrphans()
    ensures exists st: State, ls: seq<Label>, l: Label, n: string, k: Key ::
      && Init(st) && n in Exec(st, ls).store.providers && Exec(st, ls).store.providers[n].finalizer
      && n !in Next(Exec(st, ls), l).store.providers
      && Names(Next(Exec(st, ls), l).store, k, n) && Slipped(st, ls, n, k)
  {
    var n, k := "ad", Namespaced("team", "late");
    var p := Provider(0, 1, 1, true, true, 0, None, []);
    var store := Store(map[n := p], map[], {}, 2);
    var st := State(store, map[], map[]);
    var env := Env(true, P.NoFault, true, true, true, true, true, P.NoFault, P.NoFault, 0);
    var ls := OrphanRun(st, n, k, p, env);
  }

  /** The finalize of a terminating provider p stands at l, with nothing of p changed since it was read. */
  ghost predicate Standing(st: State, n: string, p: Provider, l: Local, refs: map<Key, string>) {
    && n in st.workers && st.workers[n] == l
    && n in st.store.providers && st.store.providers[n] == p && p.terminating && p.finalizer && st.store.refs == refs
  }

  function Succeeding(p: Provider, l: Local): Local {
    if l.Start? then ListingBindings(p)
    else if l.ListingBindings? then ListingClusterBindings(p)
    else if l.ListingClusterBindings? then Releasing(p)
    else Removing(p)
  }

  /** No binding of the kind that is listed at l names the provider. */
  ghost predicate ListsEmpty(refs: map<Key, string>, n: string, l: Local) {
    && (l.ListingBindings? ==> forall k :: k in refs && refs[k] == n ==> k.ClusterWide?)
    && (l.ListingClusterBindings? ==> forall k :: k in refs && refs[k] == n ==> k.Namespaced?)
  }

  /** One error-free step of that finalize, short of the removal. */
  lemma FinalizeStep(st: State, n: string, p: Provider, l: Local, env: Env, refs: map<Key, string>)
    requires Standing(st, n, p, l, refs) && ListsEmpty(refs, n, l)
    requires l == Start || l == ListingBindings(p) || l == ListingClusterBindings(p) || l == Releasing(p)
    requires env.read && env.listBindings && env.listClusterBindings
    ensures Standing(Next(st, Work(n, env)), n, p, Succeeding(p, l), refs)
    ensures Next(st, Work(n, env)).drawers == st.drawers
  {
    assert l.ListingBindings? ==> !Referenced(st.store, n, false);
    assert l.ListingClusterBindings? ==> !Referenced(st.store, n, true);
  }

  /** A reference that slipped in stays, for a finalize past both lists. */
  lemma SlippedStays(st: State, ls: seq<Label>, n: string, k: Key, env: Env)
    requires Slipped(st, ls, n, k) && Cleared(Exec(st, ls), n, k) && Cleared(Next(Exec(st, ls), Work(n, env)), n, k)
    ensures Slipped(st, ls + [Work(n, env)], n, k)
  {
    assert (ls + [Work(n, env)])[..|ls|] == ls;
  }

  lemma SlipsIn(st: State, ls: seq<Label>, n: string, k: Key, p: Provider, refs: map<Key, string>)
    requires Standing(Exec(st, ls), n, p, ListingClusterBindings(p), refs) && k.Namespaced?
    ensures Standing(Exec(st, ls + [SetRef(k, n)]), n, p, ListingClusterBindings(p), refs[k := n])
    ensures Slipped(st, ls + [SetRef(k, n)], n, k)
  {
    ExecSnoc(st, ls, SetRef(k, n));
    assert (ls + [SetRef(k, n)])[..|ls|] == ls;
  }

  /** From the start of the finalize to after the list of the namespaced kind. */
  lemma ReachSecondList(st: State, n: string, p: Provider, env: Env, refs: map<Key, string>)
    requires Standing(st, n, p, Start, refs) && ListsEmpty(refs, n, ListingBindings(p))
    requires env.read && env.listBindings && env.listClusterBindings
    ensures Standing(Exec(st, [Work(n, env), Work(n, env)]), n, p, ListingClusterBindings(p), refs)
    ensures Exec(st, [Work(n, env), Work(n, env)]).drawers == st.drawers
  {
    ExecTwo(st, Work(n, env), Work(n, env));
    FinalizeStep(st, n, p, Start, env, refs);
    FinalizeStep(Next(st, Work(n, env)), n, p, ListingBindings(p), env, refs);
  }

  /** And from there to just before the removal. */
  lemma ReachRemoval(st: State, n: string, p: Provider, env: Env, refs: map<Key, string>)
    requires Standing(st, n, p, ListingClusterBindings(p), refs) && ListsEmpty(refs, n, ListingClusterBindings(p))
    requires env.read && env.listBindings && env.listClusterBindings
    ensures Standing(Next(st, Work(n, env)), n, p, Releasing(p), refs)
    ensures Standing(Exec(st, [Work(n, env), Work(n, env)]), n, p, Removing(p), refs)
    ensures Exec(st, [Work(n, env), Work(n, env)]).drawers == st.drawers
  {
    ExecTwo(st, Work(n, env), Work(n, env));
    FinalizeStep(st, n, p, ListingClusterBindings(p), env, refs);
    FinalizeStep(Next(st, Work(n, env)), n, p, Releasing(p), env, refs);
  }

  lemma ExecTwo(st: State, l0: Label, l1: Label)
    ensures Exec(st, [l0]) == Next(st, l0)
    ensures Exec(st, [l0, l1]) == Next(Next(st, l0), l1)
  {
    assert [l0][..0] == [] && [l0, l1][..1] == [l0];
    assert Exec(st, [l0]) == Next(Exec(st, []), l0);
  }

  /** The run: both lists come back empty, the reference is added between them, the finalizer goes. */
  lemma OrphanRun(st: State, n: string, k: Key, p: Provider, env: Env) returns (ls: seq<Label>)
    requires n !in st.workers && n in st.store.providers && st.store.providers[n] == p && p.terminating && p.finalizer
    requires k.Namespaced? && forall j :: !Names(st.store, j, n)
    requires env.read && env.listBindings && env.listClusterBindings && env.remove.NoFault?
    ensures var cur, nxt := Exec(st, ls), Next(Exec(st, ls), Work(n, env));
      && n in cur.store.providers && cur.store.providers[n].finalizer
      && n !in nxt.store.providers && Names(nxt.store, k, n) && Slipped(st, ls, n, k)
  {
    var w, refs := Work(n, env), st.store.refs;
    forall j | j in refs ensures refs[j] != n {
      assert !Names(st.store, j, n);
    }
    var begun := [Begin(n)];
    ExecTwo(st, Begin(n), w);
    ReachSecondList(Exec(st, begun), n, p, env, refs);
    ExecConcat(st, begun, [w, w]);
    var listed := begun + [w, w];
    SlipsIn(st, listed, n, k, p, refs);
    ls := OrphanEnd(st, listed + [SetRef(k, n)], n, k, p, env, refs[k := n]);
  }

  lemma OrphanEnd(st: State, slipped: seq<Label>, n: string, k: Key, p: Provider, env: Env, refs: map<Key, string>)
    returns (ls: seq<Label>)
    requires Standing(Exec(st, slipped), n, p, ListingClusterBindings(p), refs) && Slipped(st, slipped, n, k)
    requires ListsEmpty(refs, n, ListingClusterBindings(p)) && k.Namespaced? && k in refs && refs[k] == n
    requires env.read && env.listBindings && env.listClusterBindings && env.remove.NoFault?
    ensures Standing(Exec(st, ls), n, p, Removing(p), refs) && Slipped(st, ls, n, k)
    ensures var s := Next(Exec(st, ls), Work(n, env)).store; n !in s.providers && Names(s, k, n)
  {
    var w, cur := Work(n, env), Exec(st, slipped);
    ReachRemoval(cur, n, p, env, refs);
    ExecTwo(cur, w, w);
    ExecSnoc(st, slipped, w);
    SlippedStays(st, slipped, n, k, env);
    ExecSnoc(st, slipped + [w], w);
    SlippedStays(st, slipped + [w], n, k, env);
    ls := slipped + [w] + [w];
    Removes(Exec(st, ls), n, p, env, refs);
  }

  /** The removal takes the provider away, and nothing else. */
  lemma Removes(st: State, n: string, p: Provider, env: Env, refs: map<Key, string>)
    requires Standing(st, n, p, Removing(p), refs) && env.remove.NoFault?
    ensures var nxt := Next(st, Work(n, env));
      n !in nxt.store.providers && nxt.store.refs == refs && nxt.store.limiters == st.store.limiters
  {
  }

  // ---------- The limiter registry ----------

  /** A binding reconcile that has found the provider draws its limiter. */
  predicate DrawsFor(st: State, l: Label, n: string) {
    l.Draw? && l.key in st.drawers && st.drawers[l.key] == Found(n)
  }

  /** The provider is deleted before it carries the finalizer. */
  predicate LeavesBare(st: State, l: Label, n: string) {
    && l == DeleteProvider(n) && n in st.store.providers
    && !st.store.providers[n].finalizer && !st.store.providers[n].terminating
  }

  /** The finalize in flight has deleted the limiter and its removal of the finalizer would be accepted. */
  predicate Released(st: State, n: string) {
    n in st.workers && st.workers[n].Removing? && Current(st.store, n, st.workers[n].p)
  }

  /** The provider's own reconcile removes the finalizer and with it the provider. */
  predicate LeavesFinalized(st: State, l: Label, n: string) {
    l.Work? && l.name == n && Released(st, n) && !l.env.remove.LostRequest?
  }

  /** Since the finalize in flight deleted the limiter, it was drawn again. */
  ghost predicate Redrawn(st: State, ls: seq<Label>, n: string)
    decreases |ls|
  {
    ls != [] &&
    var front, l := ls[..|ls| - 1], ls[|ls| - 1];
    var cur := Exec(st, front);
    Released(cur, n) && Released(Next(cur, l), n) && (DrawsFor(cur, l, n) || Redrawn(st, front, n))
  }

  /** The three ways an entry comes to outlive its provider, and no re-creation of the provider since: the provider
      was deleted with a limiter but without the finalizer; the limiter was drawn again between its release and the
      removal; or it was drawn when the provider was gone. */
  ghost predicate Outlived(st: State, ls: seq<Label>, n: string)
    decreases |ls|
  {
    ls != [] &&
    var front, l := ls[..|ls| - 1], ls[|ls| - 1];
    var cur := Exec(st, front);
    if LeavesBare(cur, l, n) then n in cur.store.limiters
    else if LeavesFinalized(cur, l, n) then Redrawn(st, front, n)
    else n !in cur.store.providers && l != CreateProvider(n) && (DrawsFor(cur, l, n) || Outlived(st, front, n))
  }

  /** A reconcile that finalizes, or probes, does so for a provider that is there with its finalizer. */
  ghost predicate WorkerGuarded(st: State, n: string) {
    n in st.workers ==>
      && (st.workers[n].Probing? || Finalizing(st.workers[n]) ==>
            n in st.store.providers && st.store.providers[n].finalizer)
      && (Finalizing(st.workers[n]) ==> st.store.providers[n].terminating)
  }

  lemma GuardedOwnStep(st: State, n: string, env: Env)
    requires WorkerGuarded(st, n)
    ensures WorkerGuarded(Next(st, Work(n, env)), n)
  {
  }

  lemma GuardedOtherStep(st: State, l: Label, n: string)
    requires WorkerGuarded(st, n) && !(l.Work? && l.name == n)
    ensures WorkerGuarded(Next(st, l), n)
  {
  }

  /** What a step makes of the provider and its limiter. */
  ghost predicate LimiterShape(st: State, l: Label, n: string, nxt: State) {
    && (n !in nxt.store.providers <==>
          LeavesBare(st, l, n) || LeavesFinalized(st, l, n) || (n !in st.store.providers && l != CreateProvider(n)))
    && (n !in nxt.store.providers ==> (n in nxt.store.limiters <==> DrawsFor(st, l, n) || n in st.store.limiters))
    && (LeavesBare(st, l, n) || LeavesFinalized(st, l, n) ==> n in st.store.providers)
    && (Released(nxt, n) ==>
          (n in nxt.store.limiters <==> Released(st, n) && (DrawsFor(st, l, n) || n in st.store.limiters)))
  }

  lemma LimiterOwnStep(st: State, n: string, env: Env)
    requires CopiesOk(st) && WorkerGuarded(st, n)
    ensures LimiterShape(st, Work(n, env), n, Next(st, Work(n, env)))
  {
  }

  lemma OtherLimiterKept(s: Store, m: string, l: Local, env: Env, n: string)
    requires m != n
    ensures n in Advance(s, m, l, env).0.limiters <==> n in s.limiters
  {
  }

  lemma LimiterOtherWork(st: State, m: string, n: string, env: Env)
    requires m != n
    ensures LimiterShape(st, Work(m, env), n, Next(st, Work(m, env)))
  {
    if m in st.workers {
      AdvanceShape(st.store, m, st.workers[m], env);
      OtherLimiterKept(st.store, m, st.workers[m], env, n);
    }
  }

  lemma LimiterProvider(st: State, l: Label, n: string)
    requires CopiesOk(st) && EditsProvider(l)
    ensures LimiterShape(st, l, n, Next(st, l))
  {
  }

  lemma LimiterOther(st: State, l: Label, n: string)
    requires !l.Work? && !EditsProvider(l)
    ensures LimiterShape(st, l, n, Next(st, l))
  {
  }

  lemma LimiterStep(st: State, l: Label, n: string)
    requires CopiesOk(st) && WorkerGuarded(st, n)
    ensures LimiterShape(st, l, n, Next(st, l))
  {
    if EditsProvider(l) {
      LimiterProvider(st, l, n);
    } else if !l.Work? {
      LimiterOther(st, l, n);
    } else if l.name == n {
      LimiterOwnStep(st, n, l.env);
    } else {
      LimiterOtherWork(st, l.name, n, l.env);
    }
  }

  /** In every reachable state, the registry holds an entry for a provider that does not exist if and only if the
      provider left in one of the three ways that leave one, or its limiter was drawn after it left. */
  lemma {:induction false} LimiterOutlivesIff(st: State, ls: seq<Label>, n: string)
    requires Init(st)
    ensures CopiesOk(Exec(st, ls)) && WorkerGuarded(Exec(st, ls), n)
    ensures Released(Exec(st, ls), n) ==> (n in Exec(st, ls).store.limiters <==> Redrawn(st, ls, n))
    ensures var s := Exec(st, ls).store; n in s.limiters && n !in s.providers <==> Outlived(st, ls, n)
    decreases |ls|
  {
    if ls != [] {
      var front, l := ls[..|ls| - 1], ls[|ls| - 1];
      LimiterOutlivesIff(st, front, n);
      var cur := Exec(st, front);
      CopiesStep(cur, l);
      if l.Work? && l.name == n {
        GuardedOwnStep(cur, n, l.env);
      } else {
        GuardedOtherStep(cur, l, n);
      }
      LimiterStep(cur, l, n);
    }
  }

  lemma ExecFour(st: State, l0: Label, l1: Label, l2: Label, l3: Label)
    ensures Exec(st, [l0, l1, l2, l3]) == Next(Next(Next(Next(st, l0), l1), l2), l3)
  {
    assert [l0, l1, l2, l3][..3] == [l0, l1, l2] && [l0, l1, l2][..2] == [l0, l1] && [l0, l1][..1] == [l0];
    assert Exec(st, [l0]) == Next(Exec(st, []), l0);
    assert Exec(st, [l0, l1]) == Next(Exec(st, [l0]), l1);
    assert Exec(st, [l0, l1, l2]) == Next(Exec(st, [l0, l1]), l2);
  }

  /** The first way: a provider deleted before its first reconcile leaves the limiter a binding drew for it. */
  lemma BareDeleteLeaks(st: State, n: string, k: Key) returns (ls: seq<Label>)
    requires n !in st.store.providers && k !in st.drawers
    ensures ls != []
    ensures var before := Exec(st, ls[..|ls| - 1]);
      LeavesBare(before, ls[|ls| - 1], n) && n in before.store.limiters
    ensures n in Exec(st, ls).store.limiters && n !in Exec(st, ls).store.providers
  {
    var found := [CreateProvider(n), SetRef(k, n), ReadBinding(k), ReadProvider(k)];
    FoundNew(st, n, k);
    ExecSnoc(st, found, Draw(k));
    ExecSnoc(st, found + [Draw(k)], DeleteProvider(n));
    ls := found + [Draw(k)] + [DeleteProvider(n)];
    assert ls[..|ls| - 1] == found + [Draw(k)];
  }

  lemma FoundNew(st: State, n: string, k: Key)
    requires n !in st.store.providers && k !in st.drawers
    ensures var cur := Exec(st, [CreateProvider(n), SetRef(k, n), ReadBinding(k), ReadProvider(k)]);
      && k in cur.drawers && cur.drawers[k] == Found(n)
      && n in cur.store.providers && !cur.store.providers[n].finalizer && !cur.store.providers[n].terminating
  {
    ExecFour(st, CreateProvider(n), SetRef(k, n), ReadBinding(k), ReadProvider(k));
    var named := Next(Next(Next(st, CreateProvider(n)), SetRef(k, n)), ReadBinding(k));
    assert named.drawers == st.drawers[k := Named(n)];
  }

  predicate NeverBare(st: State, ls: seq<Label>, n: string)
    decreases |ls|
  {
    ls == [] || (NeverBare(st, ls[..|ls| - 1], n) && !LeavesBare(Exec(st, ls[..|ls| - 1]), ls[|ls| - 1], n))
  }

  lemma {:induction false} NeverBareConcat(st: State, ls: seq<Label>, tail: seq<Label>, n: string)
    requires NeverBare(st, ls, n) && NeverBare(Exec(st, ls), tail, n)
    ensures NeverBare(st, ls + tail, n)
    decreases |tail|
  {
    if tail == [] {
      assert ls + tail == ls;
    } else {
      var front, l := tail[..|tail| - 1], tail[|tail| - 1];
      NeverBareConcat(st, ls, front, n);
      ExecConcat(st, ls, front);
      assert (ls + tail)[..|ls + tail| - 1] == ls + front;
    }
  }

  lemma {:induction false} NoDeleteNeverBare(st: State, ls: seq<Label>, n: string)
    requires forall i :: 0 <= i < |ls| ==> ls[i] != DeleteProvider(n)
    ensures NeverBare(st, ls, n)
    decreases |ls|
  {
    if ls != [] {
      NoDeleteNeverBare(st, ls[..|ls| - 1], n);
    }
  }

  /** A binding reconcile holds a provider whose deletion has begun and that nothing names any more. */
  ghost predicate Stray(st: State, n: string, k: Key) {
    && k in st.drawers && st.drawers[k] == Found(n) && n !in st.workers
    && n in st.store.providers && st.store.providers[n].finalizer && st.store.providers[n].terminating
    && forall j :: !Names(st.store, j, n)
  }

  /** A live provider that only k names, with no reconcile of either in flight. */
  ghost predicate NamedOnlyBy(st: State, n: string, k: Key) {
    && n in st.store.providers && st.store.providers[n].finalizer && !st.store.providers[n].terminating
    && n !in st.workers && k !in st.drawers
    && forall j :: Names(st.store, j, n) <==> j == k
  }

  lemma FoundLive(st: State, n: string, k: Key)
    requires NamedOnlyBy(st, n, k)
    ensures Next(Next(st, ReadBinding(k)), ReadProvider(k)) == st.(drawers := st.drawers[k := Found(n)])
  {
    assert Names(st.store, k, n);
  }

  lemma NobodyNames(st: State, n: string, k: Key)
    requires n in st.store.providers && st.store.providers[n].finalizer && !st.store.providers[n].terminating
    requires n !in st.workers && k in st.drawers && st.drawers[k] == Found(n)
    requires forall j :: Names(st.store, j, n) <==> j == k
    ensures Stray(Next(Next(st, DropRef(k)), DeleteProvider(n)), n, k)
    ensures !LeavesBare(Next(st, DropRef(k)), DeleteProvider(n), n)
  {
    var cur := Next(Next(st, DropRef(k)), DeleteProvider(n));
    assert cur.store.refs == st.store.refs - {k};
    forall j ensures !Names(cur.store, j, n) {
      assert Names(cur.store, j, n) ==> Names(st.store, j, n) && j != k;
    }
  }

  lemma StrayRun(st: State, n: string, k: Key) returns (ls: seq<Label>)
    requires NamedOnlyBy(st, n, k)
    ensures Stray(Exec(st, ls), n, k) && NeverBare(st, ls, n)
  {
    var dropped := [ReadBinding(k), ReadProvider(k), DropRef(k)];
    FoundLive(st, n, k);
    var found := st.(drawers := st.drawers[k := Found(n)]);
    NobodyNames(found, n, k);
    ExecTwo(st, ReadBinding(k), ReadProvider(k));
    ExecSnoc(st, [ReadBinding(k), ReadProvider(k)], DropRef(k));
    assert [ReadBinding(k), ReadProvider(k)] + [DropRef(k)] == dropped;
    ExecSnoc(st, dropped, DeleteProvider(n));
    NoDeleteNeverBare(st, dropped, n);
    ls := dropped + [DeleteProvider(n)];
    assert ls[..|ls| - 1] == dropped;
  }

  /** The second way: a binding reconcile that found its provider but draws only after the finalizer is gone brings the
      entry back, although both lists were empty and no call failed. */
  lemma LateDrawLeaks(st: State, n: string, k: Key, env: Env) returns (ls: seq<Label>)
    requires NamedOnlyBy(st, n, k)
    requires env.read && env.listBindings && env.listClusterBindings && env.remove.NoFault?
    ensures ls != [] && ls[|ls| - 1] == Draw(k) && NeverBare(st, ls, n)
    ensures var before := Exec(st, ls[..|ls| - 1]);
      DrawsFor(before, Draw(k), n) && n !in before.store.providers && n !in before.store.limiters
    ensures n in Exec(st, ls).store.limiters && n !in Exec(st, ls).store.providers
  {
    var stray := StrayRun(st, n, k);
    var cur := Exec(st, stray);
    StrayBegins(cur, n, k, cur.store.providers[n]);
    FinalizeIsExact(cur.store, n, env);
    var finalized := DriveIsARun(cur, n, env);
    NoDeleteNeverBare(cur, finalized, n);
    ExecConcat(st, stray, finalized);
    NeverBareConcat(st, stray, finalized, n);
    ls := DrawLast(st, stray + finalized, n, k);
  }

  lemma DrawLast(st: State, front: seq<Label>, n: string, k: Key) returns (ls: seq<Label>)
    requires DrawsFor(Exec(st, front), Draw(k), n) && NeverBare(st, front, n)
    ensures ls == front + [Draw(k)] && ls[..|ls| - 1] == front && NeverBare(st, ls, n)
    ensures Exec(st, ls) == Next(Exec(st, front), Draw(k)) && n in Exec(st, ls).store.limiters
    ensures Exec(st, ls).store.providers == Exec(st, front).store.providers
  {
    ExecSnoc(st, front, Draw(k));
    ls := front + [Draw(k)];
    assert ls[..|ls| - 1] == front;
  }

  /** Drawn between the release and the removal, the entry stays when the provider goes. */
  lemma RedrawnStays(st: State, front: seq<Label>, n: string, k: Key, p: Provider, env: Env, refs: map<Key, string>)
    requires Standing(Exec(st, front), n, p, Removing(p), refs) && DrawsFor(Exec(st, front), Draw(k), n)
    requires env.remove.NoFault?
    ensures var drawn := front + [Draw(k)];
      LeavesFinalized(Exec(st, drawn), Work(n, env), n) && Redrawn(st, drawn, n)
    ensures var last := Exec(st, front + [Draw(k)] + [Work(n, env)]);
      n in last.store.limiters && n !in last.store.providers
  {
    var drawn := front + [Draw(k)];
    ExecSnoc(st, front, Draw(k));
    assert drawn[..|drawn| - 1] == front;
    assert Standing(Exec(st, drawn), n, p, Removing(p), refs) && n in Exec(st, drawn).store.limiters;
    Removes(Exec(st, drawn), n, p, env, refs);
    ExecSnoc(st, drawn, Work(n, env));
  }

  /** The third way: the same reconcile draws between the release of the limiter and the removal of the finalizer. */
  lemma RedrawLeaks(st: State, n: string, k: Key, env: Env) returns (ls: seq<Label>)
    requires NamedOnlyBy(st, n, k)
    requires env.read && env.listBindings && env.listClusterBindings && env.remove.NoFault?
    ensures ls != [] && ls[|ls| - 1] == Work(n, env) && NeverBare(st, ls, n)
    ensures var front := ls[..|ls| - 1];
      LeavesFinalized(Exec(st, front), Work(n, env), n) && Redrawn(st, front, n)
    ensures n in Exec(st, ls).store.limiters && n !in Exec(st, ls).store.providers
  {
    var stray := StrayRun(st, n, k);
    var front := StrayThenReleases(st, stray, n, k, env);
    RedrawnStays(st, front, n, k, Exec(st, stray).store.providers[n], env, Exec(st, stray).store.refs);
    ls := front + [Draw(k)] + [Work(n, env)];
    NoDeleteNeverBare(Exec(st, front), [Draw(k), Work(n, env)], n);
    NeverBareConcat(st, front, [Draw(k), Work(n, env)], n);
    assert ls == front + [Draw(k), Work(n, env)];
    assert ls[..|ls| - 1] == front + [Draw(k)];
  }

  lemma StrayThenReleases(st: State, stray: seq<Label>, n: string, k: Key, env: Env) returns (ls: seq<Label>)
    requires Stray(Exec(st, stray), n, k) && NeverBare(st, stray, n)
    requires env.read && env.listBindings && env.listClusterBindings
    ensures var s := Exec(st, stray).store;
      Standing(Exec(st, ls), n, s.providers[n], Removing(s.providers[n]), s.refs)
    ensures DrawsFor(Exec(st, ls), Draw(k), n) && NeverBare(st, ls, n)
  {
    var cur := Exec(st, stray);
    var steps := StrayReleases(cur, n, k, cur.store.providers[n], env, cur.store.refs);
    ExecConcat(st, stray, steps);
    NeverBareConcat(st, stray, steps, n);
    ls := stray + steps;
  }

  lemma StrayBegins(st: State, n: string, k: Key, p: Provider)
    requires Stray(st, n, k) && p == st.store.providers[n]
    ensures Standing(Next(st, Begin(n)), n, p, Start, st.store.refs) && Next(st, Begin(n)).drawers == st.drawers
    ensures forall j :: j in st.store.refs ==> st.store.refs[j] != n
  {
    forall j | j in st.store.refs ensures st.store.refs[j] != n {
      assert !Names(st.store, j, n);
    }
  }

  /** The four steps of a finalize up to the release of the limiter. */
  lemma ReachRelease(st: State, n: string, p: Provider, env: Env, refs: map<Key, string>)
    requires Standing(st, n, p, Start, refs) && forall j :: j in refs ==> refs[j] != n
    requires env.read && env.listBindings && env.listClusterBindings
    ensures var w := Work(n, env);
      Standing(Exec(st, [w, w] + [w, w]), n, p, Removing(p), refs) && Exec(st, [w, w] + [w, w]).drawers == st.drawers
  {
    var w := Work(n, env);
    ReachSecondList(st, n, p, env, refs);
    ReachRemoval(Exec(st, [w, w]), n, p, env, refs);
    ExecConcat(st, [w, w], [w, w]);
  }

  /** Nothing names the provider, so its finalize gets to the point where the limiter is released. */
  lemma StrayReleases(st: State, n: string, k: Key, p: Provider, env: Env, refs: map<Key, string>)
    returns (ls: seq<Label>)
    requires Stray(st, n, k) && p == st.store.providers[n] && refs == st.store.refs
    requires env.read && env.listBindings && env.listClusterBindings
    ensures Standing(Exec(st, ls), n, p, Removing(p), refs) && Exec(st, ls).drawers == st.drawers
    ensures NeverBare(st, ls, n)
  {
    var w := Work(n, env);
    var begun, four := Next(st, Begin(n)), [w, w] + [w, w];
    StrayBegins(st, n, k, p);
    ReachRelease(begun, n, p, env, refs);
    ls := Prepend(st, Begin(n), four);
    NoDeleteNeverBare(st, ls, n);
  }

  lemma Prepend(st: State, l: Label, tail: seq<Label>) returns (ls: seq<Label>)
    ensures ls == [l] + tail && Exec(st, ls) == Exec(Next(st, l), tail)
  {
    ls := [l] + tail;
    ExecTwo(st, l, l);
    ExecConcat(st, [l], tail);
  }

  lemma {:induction false} ExecConcat(st: State, ls: seq<Label>, tail: seq<Label>)
    ensures Exec(st, ls + tail) == Exec(Exec(st, ls), tail)
    decreases |tail|
  {
    if tail == [] {
      assert ls + tail == ls;
    } else {
      var front, l := tail[..|tail| - 1], tail[|tail| - 1];
      ExecConcat(st, ls, front);
      assert ls + tail == (ls + front) + [l];
      ExecSnoc(st, ls + front, l);
    }
  }

  predicate Holds(st: State, k: Key, n: string) {
    k in st.drawers && st.drawers[k].name == n
  }

  /** If the label is one of the two lists of the finalize, every binding reconcile in flight towards the provider
      is for a binding that still names it. */
  ghost predicate NoStray(st: State, l: Label, n: string) {
    l.Work? && l.name == n && n in st.workers && Listing(st.workers[n]) ==>
      forall k :: Holds(st, k, n) ==> Names(st.store, k, n)
  }

  ghost predicate NeverStray(st: State, ls: seq<Label>, n: string)
    decreases |ls|
  {
    ls == [] || (NeverStray(st, ls[..|ls| - 1], n) && NoStray(Exec(st, ls[..|ls| - 1]), ls[|ls| - 1], n))
  }

  /** No reconcile can still draw for the provider once the lists are past, or the provider gone. */
  ghost predicate NoDrawLeft(st: State, n: string) {
    && (forall k :: Cleared(st, n, k) ==> !Holds(st, k, n) && !Names(st.store, k, n))
    && (n !in st.store.providers ==> forall k :: k in st.drawers ==> st.drawers[k] != Found(n))
  }

  lemma NoDrawOwnStep(st: State, n: string, env: Env)
    requires CopiesOk(st) && WorkerGuarded(st, n) && NoDrawLeft(st, n) && NoStray(st, Work(n, env), n)
    ensures NoDrawLeft(Next(st, Work(n, env)), n)
  {
    var nxt := Next(st, Work(n, env));
    OwnStepKeepsRefs(st, n, env);
    forall k | Cleared(nxt, n, k) ensures !Holds(nxt, k, n) && !Names(nxt.store, k, n) {
      if !Cleared(st, n, k) {
        ListIsTrue(st, n, k, env);
      }
    }
    LimiterOwnStep(st, n, env);
    if LeavesFinalized(st, Work(n, env), n) {
      forall k | k in nxt.drawers ensures nxt.drawers[k] != Found(n) {
        assert Cleared(st, n, k);
      }
    }
  }

  lemma NoDrawOtherStep(st: State, l: Label, n: string)
    requires CopiesOk(st) && NoDrawLeft(st, n) && !LeavesBare(st, l, n) && !(l.Work? && l.name == n)
    requires forall k :: NoLateReference(st, l, n, k)
    requires WorkerGuarded(st, n)
    ensures NoDrawLeft(Next(st, l), n)
  {
    var nxt := Next(st, l);
    LimiterStep(st, l, n);
    forall k | Cleared(nxt, n, k) ensures !Holds(nxt, k, n) && !Names(nxt.store, k, n) {
      OthersDoNotClear(st, l, n, k);
      RefsShape(st, l, n, k);
      assert NoLateReference(st, l, n, k);
    }
  }

  /** A provider leaves no limiter behind if no binding is made to name it while it is terminating, it is not
      deleted without the finalizer, and no binding reconcile is in flight for a dropped reference when the lists
      are taken. */
  lemma {:induction false} LimitersNeverLeak(st: State, ls: seq<Label>, n: string)
    requires Init(st) && NeverBare(st, ls, n) && NeverStray(st, ls, n) && forall k :: NeverLate(st, ls, n, k)
    ensures NoDrawLeft(Exec(st, ls), n) && !Redrawn(st, ls, n) && !Outlived(st, ls, n)
    ensures n in Exec(st, ls).store.limiters ==> n in Exec(st, ls).store.providers
    decreases |ls|
  {
    LimiterOutlivesIff(st, ls, n);
    if ls != [] {
      var front, l := ls[..|ls| - 1], ls[|ls| - 1];
      var cur := Exec(st, front);
      forall k ensures NeverLate(st, front, n, k) && NoLateReference(cur, l, n, k) {
        assert NeverLate(st, ls, n, k);
      }
      LimitersNeverLeak(st, front, n);
      LimiterOutlivesIff(st, front, n);
      if Released(cur, n) && DrawsFor(cur, l, n) {
        assert Cleared(cur, n, l.key) && Holds(cur, l.key, n);
      }
      if l.Work? && l.name == n {
        NoDrawOwnStep(cur, n, l.env);
      } else {
        NoDrawOtherStep(cur, l, n);
      }
    }
  }

  // ---------- Conditions and readiness ----------

  ghost predicate ProviderConditionsOk(cs: seq<Condition>) {
    C.UniqueTypes(cs) && !(C.IsTrue(cs, Ready) && C.IsTrue(cs, Degraded))
  }

  /** The Ready condition each mark leaves. */
  function ReadyOf(m: Mark): Condition {
    match m
    case MarkedReady => Condition(Ready, true, SyncSucceeded)
    case MarkedDegraded => Condition(Ready, false, LDAPUnreachable)
    case MarkedInvalid => Condition(Ready, false, InvalidSpec)
  }

  /** What each mark makes of the two conditions. */
  lemma MarkReadsBack(cs: seq<Condition>, m: Mark)
    ensures C.Find(Applied(cs, m), Ready) == Some(ReadyOf(m))
    ensures C.Find(Applied(cs, m), Degraded) ==
      match m
      case MarkedReady => Some(Condition(Degraded, false, SyncSucceeded))
      case MarkedDegraded => Some(Condition(Degraded, true, LDAPUnreachable))
      case MarkedInvalid => C.Find(cs, Degraded)
  {
    var ready := ReadyOf(m);
    C.FindAfterSet(cs, ready, Ready);
    C.FindAfterSet(cs, ready, Degraded);
    if !m.MarkedInvalid? {
      var degraded := Condition(Degraded, m.MarkedDegraded?, ready.reason);
      C.FindAfterSet(C.Set(cs, ready), degraded, Ready);
      C.FindAfterSet(C.Set(cs, ready), degraded, Degraded);
    }
  }

  /** markInvalidSpec leaves Degraded as it was, and still the two are never both true. */
  lemma AppliedOk(cs: seq<Condition>, m: Mark)
    requires ProviderConditionsOk(cs)
    ensures ProviderConditionsOk(Applied(cs, m))
  {
    MarkReadsBack(cs, m);
    forall c: Condition, any: seq<Condition> | C.UniqueTypes(any) ensures C.UniqueTypes(C.Set(any, c)) {
      C.SetKeepsUnique(any, c);
    }
  }

  /** The last mark this run persisted for the provider now stored under n, if any. */
  function LastMark(st: State, ls: seq<Label>, n: string): Option<Mark>
    decreases |ls|
  {
    if ls == [] then None
    else
      var front, l := ls[..|ls| - 1], ls[|ls| - 1];
      var cur := Exec(st, front);
      if l == CreateProvider(n) && n !in cur.store.providers then None
      else if Persists(cur, l, n) then Some(cur.workers[n].mark)
      else LastMark(st, front, n)
  }

  predicate Persists(st: State, l: Label, n: string) {
    && l.Work? && l.name == n && n in st.workers && st.workers[n].Marking?
    && !l.env.status.LostRequest? && Current(st.store, n, st.workers[n].p)
  }

  ghost predicate ReadyShows(cs: seq<Condition>, last: Option<Mark>) {
    C.Find(cs, Ready) == match last case None => None case Some(m) => Some(ReadyOf(m))
  }

  /** What a step makes of the conditions. */
  ghost predicate ConditionsShape(st: State, l: Label, n: string, nxt: State) {
    n in nxt.store.providers ==>
      var cs := nxt.store.providers[n].conditions;
      if n !in st.store.providers then l == CreateProvider(n) && cs == []
      else
        var was := st.store.providers[n].conditions;
        cs == if Persists(st, l, n) then Applied(was, st.workers[n].mark) else was
  }

  lemma ConditionsWork(st: State, l: Label, n: string)
    requires CopiesOk(st) && l.Work?
    ensures ConditionsShape(st, l, n, Next(st, l))
  {
    if l.name != n && l.name in st.workers {
      AdvanceShape(st.store, l.name, st.workers[l.name], l.env);
    }
  }

  lemma ConditionsOther(st: State, l: Label, n: string)
    requires !l.Work?
    ensures ConditionsShape(st, l, n, Next(st, l))
  {
  }

  lemma {:induction false} ConditionsFollowMarks(st: State, ls: seq<Label>, n: string)
    requires Init(st)
    ensures CopiesOk(Exec(st, ls))
    ensures n in Exec(st, ls).store.providers ==>
      var cs := Exec(st, ls).store.providers[n].conditions;
      ProviderConditionsOk(cs) && ReadyShows(cs, LastMark(st, ls, n))
    decreases |ls|
  {
    if ls != [] {
      var front, l := ls[..|ls| - 1], ls[|ls| - 1];
      ConditionsFollowMarks(st, front, n);
      var cur := Exec(st, front);
      CopiesStep(cur, l);
      if n in Next(cur, l).store.providers {
        if l.Work? {
          ConditionsWork(cur, l, n);
        } else {
          ConditionsOther(cur, l, n);
        }
        if Persists(cur, l, n) {
          AppliedOk(cur.store.providers[n].conditions, cur.workers[n].mark);
          MarkReadsBack(cur.store.providers[n].conditions, cur.workers[n].mark);
        }
      }
    }
  }

  /** The time of the last markReady this run persisted for the provider now stored under n, if any. */
  function LastVerified(st: State, ls: seq<Label>, n: string): Option<nat>
    decreases |ls|
  {
    if ls == [] then None
    else
      var front, l := ls[..|ls| - 1], ls[|ls| - 1];
      var cur := Exec(st, front);
      if l == CreateProvider(n) && n !in cur.store.providers then None
      else if Persists(cur, l, n) && cur.workers[n].mark.MarkedReady? then Some(l.env.now)
      else LastVerified(st, front, n)
  }

  /** What a step makes of lastVerifiedTime. */
  ghost predicate VerifiedShape(st: State, l: Label, n: string, nxt: State) {
    n in nxt.store.providers ==>
      nxt.store.providers[n].lastVerifiedTime ==
      if n !in st.store.providers then None
      else if Persists(st, l, n) && st.workers[n].mark.MarkedReady? then Some(l.env.now)
      else st.store.providers[n].lastVerifiedTime
  }

  lemma VerifiedWork(st: State, l: Label, n: string)
    requires CopiesOk(st) && l.Work?
    ensures VerifiedShape(st, l, n, Next(st, l))
  {
    if l.name != n && l.name in st.workers {
      AdvanceShape(st.store, l.name, st.workers[l.name], l.env);
    }
  }

  lemma VerifiedOther(st: State, l: Label, n: string)
    requires !l.Work?
    ensures VerifiedShape(st, l, n, Next(st, l))
    ensures n in Next(st, l).store.providers ==> n in st.store.providers || l == CreateProvider(n)
  {
  }

  lemma {:induction false} CopiesAlways(st: State, ls: seq<Label>)
    requires Init(st)
    ensures CopiesOk(Exec(st, ls))
    decreases |ls|
  {
    if ls != [] {
      CopiesAlways(st, ls[..|ls| - 1]);
      CopiesStep(Exec(st, ls[..|ls| - 1]), ls[|ls| - 1]);
    }
  }

  lemma VerifiedStep(st: State, l: Label, n: string)
    requires CopiesOk(st)
    ensures VerifiedShape(st, l, n, Next(st, l))
    ensures n in Next(st, l).store.providers ==> n in st.store.providers || l == CreateProvider(n)
  {
    if l.Work? {
      VerifiedWork(st, l, n);
    } else {
      VerifiedOther(st, l, n);
    }
  }

  /** In every reachable state lastVerifiedTime is the time of the last persisted markReady; failed health checks,
      edits and finalizer updates leave it alone. */
  lemma {:induction false} VerifiedTimeIsExact(st: State, ls: seq<Label>, n: string)
    requires Init(st) && n in Exec(st, ls).store.providers
    ensures Exec(st, ls).store.providers[n].lastVerifiedTime == LastVerified(st, ls, n)
    decreases |ls|
  {
    if ls != [] {
      var front, l := ls[..|ls| - 1], ls[|ls| - 1];
      CopiesAlways(st, front);
      VerifiedStep(Exec(st, front), l, n);
      if n in Exec(st, front).store.providers {
        VerifiedTimeIsExact(st, front, n);
      }
    }
  }

  /** Index i is the first in the list whose provider's last persisted mark is not markReady. */
  ghost predicate FirstUnready(st: State, ls: seq<Label>, items: seq<(string, Provider)>, i: nat) {
    && i < |items| && LastMark(st, ls, items[i].0) != Some(MarkedReady)
    && forall j :: 0 <= j < i ==> LastMark(st, ls, items[j].0) == Some(MarkedReady)
  }

  /** What the check makes of a list: the first provider that is not ready decides. */
  lemma {:induction false} CheckFindsFirst(items: seq<(string, Provider)>, i: nat)
    requires i < |items| && !C.IsTrue(items[i].1.conditions, Ready)
    requires forall j :: 0 <= j < i ==> C.IsTrue(items[j].1.conditions, Ready)
    ensures Check(true, items) ==
      match C.Find(items[i].1.conditions, Ready)
      case None => NeverChecked(items[i].0)
      case Some(c) => Unready(items[i].0, c.reason)
  {
    if i > 0 {
      assert forall j :: 0 <= j < |items| - 1 ==> items[1..][j] == items[j + 1];
      CheckFindsFirst(items[1..], i - 1);
    }
  }

  lemma ListedReady(st: State, ls: seq<Label>, items: seq<(string, Provider)>)
    requires Init(st) && Lists(items, Exec(st, ls).store.providers)
    ensures forall i :: 0 <= i < |items| ==>
      ReadyShows(items[i].1.conditions, LastMark(st, ls, items[i].0))
    ensures forall n :: n in Exec(st, ls).store.providers ==> exists i :: 0 <= i < |items| && items[i].0 == n
  {
    var ps := Exec(st, ls).store.providers;
    forall i | 0 <= i < |items| ensures ReadyShows(items[i].1.conditions, LastMark(st, ls, items[i].0)) {
      ConditionsFollowMarks(st, ls, items[i].0);
    }
    forall n | n in ps ensures exists i :: 0 <= i < |items| && items[i].0 == n {
      assert (n, ps[n]) in items;
      var i :| 0 <= i < |items| && items[i] == (n, ps[n]);
    }
  }

  /** In every reachable state and for every order of the list, the readiness check succeeds if and only if the list
      does and each stored provider has had a status persisted and the last one was a markReady. Otherwise it
      says so: that the list failed, or which provider, the first in the list, was never checked or was last
      found unready, and for which reason. */
  lemma ReadinessIsExact(st: State, ls: seq<Label>, listed: bool, items: seq<(string, Provider)>)
    requires Init(st) && (listed ==> Lists(items, Exec(st, ls).store.providers))
    ensures Check(listed, items).Healthy? <==>
      listed && forall n :: n in Exec(st, ls).store.providers ==> LastMark(st, ls, n) == Some(MarkedReady)
    ensures Check(listed, items).ListFailed? <==> !listed
    ensures listed ==> forall i: nat :: FirstUnready(st, ls, items, i) ==>
      Check(listed, items) ==
        match LastMark(st, ls, items[i].0)
        case None => NeverChecked(items[i].0)
        case Some(m) => Unready(items[i].0, if m.MarkedInvalid? then InvalidSpec else LDAPUnreachable)
  {
    if listed {
      ListedReady(st, ls, items);
      CheckHealthy(items);
      ReadyIffMarked(st, ls, items);
      forall i: nat | FirstUnready(st, ls, items, i)
        ensures Check(true, items) ==
          match LastMark(st, ls, items[i].0)
          case None => NeverChecked(items[i].0)
          case Some(m) => Unready(items[i].0, if m.MarkedInvalid? then InvalidSpec else LDAPUnreachable)
      {
        assert ReadyShows(items[i].1.conditions, LastMark(st, ls, items[i].0));
        CheckFindsFirst(items, i);
      }
      CheckListed(items);
      if !(forall n :: n in Exec(st, ls).store.providers ==> LastMark(st, ls, n) == Some(MarkedReady)) {
        var n :| n in Exec(st, ls).store.providers && LastMark(st, ls, n) != Some(MarkedReady);
        var i :| 0 <= i < |items| && items[i].0 == n;
        assert !C.IsTrue(items[i].1.conditions, Ready);
      }
    }
  }

  lemma ReadyIffMarked(st: State, ls: seq<Label>, items: seq<(string, Provider)>)
    requires forall i :: 0 <= i < |items| ==> ReadyShows(items[i].1.conditions, LastMark(st, ls, items[i].0))
    ensures forall i :: 0 <= i < |items| ==>
      (C.IsTrue(items[i].1.conditions, Ready) <==> LastMark(st, ls, items[i].0) == Some(MarkedReady))
  {
    forall i | 0 <= i < |items|
      ensures C.IsTrue(items[i].1.conditions, Ready) <==> LastMark(st, ls, items[i].0) == Some(MarkedReady)
    {
      assert ReadyShows(items[i].1.conditions, LastMark(st, ls, items[i].0));
    }
  }

  lemma {:induction false} CheckListed(items: seq<(string, Provider)>)
    ensures !Check(true, items).ListFailed?
  {
    if items != [] {
      CheckListed(items[1..]);
    }
  }

  // ---------- One reconcile alone ----------

  lemma DriveOnce(s: Store, n: string, l: Local, env: Env)
    requires !l.Finished?
    ensures var (s', l') := Advance(s, n, l, env);
      Drive(s, n, l, env) == Drive(s', n, l', env) && Rank(l') < Rank(l)
  {
  }

  /** What ends a provider reconcile before there is anything to check: a failed read and a failed finalizer update are
      returned as errors, a provider that is gone, or terminating without the finalizer, is no error. */
  lemma FailedReadsWriteNothing(s: Store, n: string, env: Env)
    ensures !env.read ==> Drive(s, n, Start, env) == (s, false)
    ensures env.read && n !in s.providers ==> Drive(s, n, Start, env) == (s, true)
    ensures env.read && n in s.providers && s.providers[n].terminating && !s.providers[n].finalizer ==>
      Drive(s, n, Start, env) == (s, true)
    ensures env.read && n in s.providers && !s.providers[n].terminating && !s.providers[n].finalizer
            && !env.add.NoFault? ==>
      var p := s.providers[n].(finalizer := true, version := s.clock);
      Drive(s, n, Start, env) ==
        (if env.add.LostRequest? then s else s.(providers := s.providers[n := p], clock := s.clock + 1), false)
  {
    DriveOnce(s, n, Start, env);
    var (s1, l1) := Advance(s, n, Start, env);
    if l1.Adding? {
      DriveOnce(s1, n, l1, env);
    }
  }

  /** What the health check leaves in the status of a provider it started from p. */
  ghost predicate HealthTold(p: Provider, env: Env, after: Provider) {
    var healthy := env.tlsValid && env.clientBuilt && env.ping;
    var reason := if healthy then SyncSucceeded else if env.tlsValid then LDAPUnreachable else InvalidSpec;
    && after.observedGeneration == p.generation
    && C.Find(after.conditions, Ready) == Some(Condition(Ready, healthy, reason))
    && C.Find(after.conditions, Degraded)
       == (if env.tlsValid then Some(Condition(Degraded, !healthy, reason)) else C.Find(p.conditions, Degraded))
    && after.lastVerifiedTime == (if healthy then Some(env.now) else p.lastVerifiedTime)
  }

  /** A live provider ends up carrying the finalizer, and its status tells exactly how the health check went, with the
      reason, unless the status write is lost; a limiter is drawn only when a client could be built; an error is
      returned if and only if the directory was unreachable or the status write did not succeed. */
  lemma HealthCheckTellsOutcome(s: Store, n: string, env: Env)
    requires n in s.providers && !s.providers[n].terminating
    requires env.read && (s.providers[n].finalizer || env.add.NoFault?)
    ensures var (s', ok) := Drive(s, n, Start, env);
      && n in s'.providers && s'.providers[n].finalizer
      && (!env.status.LostRequest? ==> HealthTold(s.providers[n], env, s'.providers[n]))
      && (env.status.LostRequest? ==>
            && s'.providers[n].conditions == s.providers[n].conditions
            && s'.providers[n].observedGeneration == s.providers[n].observedGeneration
            && s'.providers[n].lastVerifiedTime == s.providers[n].lastVerifiedTime)
      && s'.limiters == (if env.tlsValid && env.clientBuilt then s.limiters + {n} else s.limiters)
      && (ok <==> ((env.clientBuilt && env.ping) || !env.tlsValid) && env.status.NoFault?)
  {
    var p := s.providers[n];
    DriveOnce(s, n, Start, env);
    var (s0, l0) := Advance(s, n, Start, env);
    if l0.Adding? {
      DriveOnce(s0, n, l0, env);
      var (s1, l1) := Advance(s0, n, l0, env);
      ProbeTellsOutcome(s1, n, l1.p, env);
    } else {
      ProbeTellsOutcome(s0, n, p, env);
    }
  }

  lemma ProbeTellsOutcome(s: Store, n: string, p: Provider, env: Env)
    requires n in s.providers && s.providers[n] == p
    ensures var (s', ok) := Drive(s, n, Probing(p), env);
      && n in s'.providers && s'.providers[n].finalizer == p.finalizer
      && (!env.status.LostRequest? ==> HealthTold(p, env, s'.providers[n]))
      && (env.status.LostRequest? ==> s'.providers[n] == p)
      && s'.limiters == (if env.tlsValid && env.clientBuilt then s.limiters + {n} else s.limiters)
      && (ok <==> ((env.clientBuilt && env.ping) || !env.tlsValid) && env.status.NoFault?)
  {
    DriveOnce(s, n, Probing(p), env);
    var (s1, l1) := Advance(s, n, Probing(p), env);
    DriveOnce(s1, n, l1, env);
    MarkReadsBack(p.conditions, l1.mark);
  }

  /** A terminating provider, whatever fails: a needed list that fails is an error and changes nothing; a binding of
      either kind that names the provider keeps it, without an error, and the second list is taken only if the
      first found none; otherwise the limiter goes and then, unless that write is lost, the provider. */
  lemma FinalizeIsExact(s: Store, n: string, env: Env)
    requires n in s.providers && s.providers[n].terminating && s.providers[n].finalizer && env.read
    ensures Drive(s, n, Start, env) ==
      if !env.listBindings then (s, false)
      else if exists k :: k in s.refs && s.refs[k] == n && k.Namespaced? then (s, true)
      else if !env.listClusterBindings then (s, false)
      else if exists k :: k in s.refs && s.refs[k] == n && k.ClusterWide? then (s, true)
      else if env.remove.LostRequest? then (s.(limiters := s.limiters - {n}), false)
      else (s.(providers := s.providers - {n}, limiters := s.limiters - {n}), env.remove.NoFault?)
  {
    var p := s.providers[n];
    DriveOnce(s, n, Start, env);
    DriveOnce(s, n, ListingBindings(p), env);
    ReferencedIff(s, n);
    var (_, l1) := Advance(s, n, ListingBindings(p), env);
    if l1.ListingClusterBindings? {
      DriveOnce(s, n, l1, env);
      var (_, l2) := Advance(s, n, l1, env);
      if l2.Releasing? {
        FinishRelease(s, n, p, env);
      }
    }
  }

  lemma ReferencedIff(s: Store, n: string)
    ensures Referenced(s, n, false) <==> exists k :: k in s.refs && s.refs[k] == n && k.Namespaced?
    ensures Referenced(s, n, true) <==> exists k :: k in s.refs && s.refs[k] == n && k.ClusterWide?
  {
  }

  lemma FinishRelease(s: Store, n: string, p: Provider, env: Env)
    requires n in s.providers && s.providers[n] == p && p.terminating
    ensures Drive(s, n, Releasing(p), env) ==
      if env.remove.LostRequest? then (s.(limiters := s.limiters - {n}), false)
      else (s.(providers := s.providers - {n}, limiters := s.limiters - {n}), env.remove.NoFault?)
  {
    DriveOnce(s, n, Releasing(p), env);
    var (s1, l1) := Advance(s, n, Releasing(p), env);
    DriveOnce(s1, n, l1, env);
  }

  /** The steps of a reconcile in flight, with nothing in between. */
  lemma {:induction false} StepsAreARun(st: State, n: string, env: Env, rank: nat) returns (ls: seq<Label>)
    requires n in st.workers && !st.workers[n].Finished? && Rank(st.workers[n]) <= rank
    ensures Exec(st, ls) == st.(store := Drive(st.store, n, st.workers[n], env).0, workers := st.workers - {n})
    ensures forall i :: 0 <= i < |ls| ==> ls[i] == Work(n, env)
    decreases rank
  {
    var w := Work(n, env);
    var (s', l') := Advance(st.store, n, st.workers[n], env);
    DriveOnce(st.store, n, st.workers[n], env);
    ExecTwo(st, w, w);
    if l'.Finished? {
      ls := [w];
    } else {
      var nxt := st.(store := s', workers := st.workers[n := l']);
      var rest := StepsAreARun(nxt, n, env, rank - 1);
      ExecConcat(st, [w], rest);
      ls := [w] + rest;
      assert nxt.workers - {n} == st.workers - {n};
    }
  }

  /** One reconcile alone is a run: its begin and its steps, with nothing in between. */
  lemma DriveIsARun(st: State, n: string, env: Env) returns (ls: seq<Label>)
    requires n !in st.workers
    ensures Exec(st, ls) == st.(store := Drive(st.store, n, Start, env).0)
    ensures ls != [] && ls[0] == Begin(n) && forall i :: 1 <= i < |ls| ==> ls[i] == Work(n, env)
  {
    var begun := st.(workers := st.workers[n := Start]);
    ExecTwo(st, Begin(n), Begin(n));
    var steps := StepsAreARun(begun, n, env, Rank(Start));
    ExecConcat(st, [Begin(n)], steps);
    ls := [Begin(n)] + steps;
    assert begun.workers - {n} == st.workers;
  }
}
