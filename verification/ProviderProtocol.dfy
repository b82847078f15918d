/** The LDAPProvider reconcile loop: in-use-protection finalizer, health check, readiness conditions. */
module ProviderProtocol {
  import opened Api
  import C = Conditions
  import P = Protocol

  /** `terminating` is a set deletionTimestamp, `finalizer` the in-use-protection finalizer. */
  datatype Provider = Provider(
    uid: nat, generation: nat, version: nat, finalizer: bool, terminating: bool,
    observedGeneration: nat, lastVerifiedTime: Option<nat>, conditions: seq<Condition>)

  /** `refs` gives the providerRef of every binding of either kind; `limiters` the keys of the registry. */
  datatype Store = Store(providers: map<string, Provider>, refs: map<Key, string>, limiters: set<string>, clock: nat)

  datatype Mark = MarkedReady | MarkedDegraded | MarkedInvalid

  datatype Env = Env(
    read: bool, add: P.Fault, tlsValid: bool, clientBuilt: bool, ping: bool,
    listBindings: bool, listClusterBindings: bool, remove: P.Fault, status: P.Fault, now: nat)

  datatype Local =
    | Start
    | Adding(p: Provider)
    | Probing(p: Provider)
    | Marking(p: Provider, mark: Mark)
    | ListingBindings(p: Provider)
    | ListingClusterBindings(p: Provider)
    | Releasing(p: Provider)
    | Removing(p: Provider)
    | Finished(ok: bool)

  // ---------- The API server ----------

  predicate Current(s: Store, n: string, p: Provider) {
    n in s.providers && s.providers[n].version == p.version
  }

  /** An update of the finalizers: rejected on a stale resourceVersion; the last finalizer leaving a
      terminating object removes the object. */
  function UpdateFinalizer(s: Store, n: string, p: Provider, f: P.Fault): (Store, bool) {
    if f.LostRequest? || !Current(s, n, p) then (s, false)
    else if s.providers[n].terminating && !p.finalizer then (s.(providers := s.providers - {n}), f.NoFault?)
    else
      (s.(providers := s.providers[n := s.providers[n].(finalizer := p.finalizer, version := s.clock)],
          clock := s.clock + 1), f.NoFault?)
  }

  function UpdateProviderStatus(s: Store, n: string, p: Provider, f: P.Fault): (Store, bool) {
    if f.LostRequest? || !Current(s, n, p) then (s, false)
    else
      var stored := s.providers[n].(
        observedGeneration := p.observedGeneration, lastVerifiedTime := p.lastVerifiedTime,
        conditions := p.conditions, version := s.clock);
      (s.(providers := s.providers[n := stored], clock := s.clock + 1), f.NoFault?)
  }

  predicate Referenced(s: Store, n: string, cluster: bool) {
    exists k :: k in s.refs && s.refs[k] == n && k.ClusterWide? == cluster
  }

  // ---------- Status marks ----------

  function Applied(cs: seq<Condition>, m: Mark): seq<Condition> {
    match m
    case MarkedReady =>
      C.Set(C.Set(cs, Condition(Ready, true, SyncSucceeded)), Condition(Degraded, false, SyncSucceeded))
    case MarkedDegraded =>
      C.Set(C.Set(cs, Condition(Ready, false, LDAPUnreachable)), Condition(Degraded, true, LDAPUnreachable))
    case MarkedInvalid =>
      C.Set(cs, Condition(Ready, false, InvalidSpec))
  }

  /** Only markReady moves lastVerifiedTime. */
  function MarkProvider(p: Provider, m: Mark, now: nat): Provider {
    p.(observedGeneration := p.generation, conditions := Applied(p.conditions, m),
       lastVerifiedTime := if m.MarkedReady? then Some(now) else p.lastVerifiedTime)
  }

  // ---------- The reconcile loop ----------

  function Advance(s: Store, n: string, l: Local, env: Env): (Store, Local) {
    match l
    case Start =>
      if !env.read then (s, Finished(false))
      else if n !in s.providers then (s, Finished(true))
      else
        var p := s.providers[n];
        (s, if p.terminating then (if p.finalizer then ListingBindings(p) else Finished(true))
            else if p.finalizer then Probing(p) else Adding(p))
    case Adding(p) =>
      var (s', ok) := UpdateFinalizer(s, n, p.(finalizer := true), env.add);
      (s', if ok && n in s'.providers then Probing(s'.providers[n]) else Finished(false))
    case Probing(p) =>
      if !env.tlsValid then (s, Marking(p, MarkedInvalid))
      else if !env.clientBuilt then (s, Marking(p, MarkedDegraded))
      else (s.(limiters := s.limiters + {n}), Marking(p, if env.ping then MarkedReady else MarkedDegraded))
    case Marking(p, m) =>
      var (s', ok) := UpdateProviderStatus(s, n, MarkProvider(p, m, env.now), env.status);
      (s', Finished(ok && !m.MarkedDegraded?))
    case ListingBindings(p) =>
      (s, if !env.listBindings then Finished(false)
          else if Referenced(s, n, false) then Finished(true)
          else ListingClusterBindings(p))
    case ListingClusterBindings(p) =>
      (s, if !env.listClusterBindings then Finished(false)
          else if Referenced(s, n, true) then Finished(true)
          else Releasing(p))
    case Releasing(p) =>
      (s.(limiters := s.limiters - {n}), Removing(p))
    case Removing(p) =>
      var (s', ok) := UpdateFinalizer(s, n, p.(finalizer := false), env.remove);
      (s', Finished(ok))
    case Finished(_) => (s, l)
  }

  function Rank(l: Local): nat {
    match l
    case Start => 5
    case Adding(_) => 4
    case Probing(_) => 3
    case Marking(_, _) => 1
    case ListingBindings(_) => 4
    case ListingClusterBindings(_) => 3
    case Releasing(_) => 2
    case Removing(_) => 1
    case Finished(_) => 0
  }

  /** One reconcile run to its end with nothing else happening. */
  function Drive(s: Store, n: string, l: Local, env: Env): (Store, bool)
    decreases Rank(l)
  {
    if l.Finished? then (s, l.ok)
    else var (s', l') := Advance(s, n, l, env); Drive(s', n, l', env)
  }

  // ---------- Readiness ----------

  datatype Verdict = Healthy | ListFailed | NeverChecked(name: string) | Unready(name: string, reason: Reason)

  /** LDAPProviderReadiness.Check over the listed providers, in list order. */
  function Check(listed: bool, items: seq<(string, Provider)>): Verdict {
    if !listed then ListFailed
    else if items == [] then Healthy
    else
      var (name, p) := items[0];
      var c := C.Find(p.conditions, Ready);
      if c.None? then NeverChecked(name)
      else if !c.value.isTrue then Unready(name, c.value.reason)
      else Check(listed, items[1..])
  }

  ghost predicate Lists(items: seq<(string, Provider)>, providers: map<string, Provider>) {
    && (forall i :: 0 <= i < |items| ==> items[i].0 in providers && providers[items[i].0] == items[i].1)
    && (forall n :: n in providers ==> (n, providers[n]) in items)
  }

  lemma {:induction false} CheckHealthy(items: seq<(string, Provider)>)
    ensures Check(true, items).Healthy? <==> forall i :: 0 <= i < |items| ==> C.IsTrue(items[i].1.conditions, Ready)
  {
    if items != [] {
      CheckHealthy(items[1..]);
      assert forall i :: 0 < i < |items| ==> items[i] == items[1..][i - 1];
      assert forall i :: 0 <= i < |items[1..]| ==> items[1..][i] == items[i + 1];
    }
  }
}
