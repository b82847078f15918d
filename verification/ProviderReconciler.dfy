/** The LDAPProvider reconciler as the imperative code it is, proved to be a run of the protocol. */
module ProviderReconciler {
  import opened Api
  import C = Conditions
  import Protocol
  import opened ProviderProtocol

  class ProviderServer {
    var providers: map<string, Provider>
    var refs: map<Key, string>
    var limiters: set<string>
    var clock: nat

    function Snapshot(): Store
      reads this
    {
      Store(providers, refs, limiters, clock)
    }

    method Put(s: Store)
      modifies this
      ensures Snapshot() == s
    {
      providers, refs, limiters, clock := s.providers, s.refs, s.limiters, s.clock;
    }

    /** Status().Update */
    method UpdateStatus(n: string, p: Provider, f: Protocol.Fault) returns (ok: bool)
      modifies this
      ensures (Snapshot(), ok) == UpdateProviderStatus(old(Snapshot()), n, p, f)
    {
      var (s, r) := UpdateProviderStatus(Snapshot(), n, p, f);
      Put(s);
      ok := r;
    }

    /** Update, which also refreshes the caller's copy with the stored object. */
    method Update(n: string, copy: ProviderCopy, f: Protocol.Fault) returns (ok: bool)
      modifies this, copy
      ensures (Snapshot(), ok) == UpdateFinalizer(old(Snapshot()), n, old(copy.value), f)
      ensures copy.value == if ok && n in providers then providers[n] else old(copy.value)
    {
      var (s, r) := UpdateFinalizer(Snapshot(), n, copy.value, f);
      Put(s);
      ok := r;
      if ok && n in providers {
        copy.value := providers[n];
      }
    }
  }

  /** The reconciler's own copy of the provider it read. */
  class ProviderCopy {
    var value: Provider

    constructor (p: Provider)
      ensures value == p
    {
      value := p;
    }

    method SetStatusCondition(c: Condition)
      modifies this
      ensures value == old(value).(conditions := C.Set(old(value).conditions, c))
    {
      value := value.(conditions := C.Set(value.conditions, c));
    }
  }

  class LDAPProviderReconciler {
    const api: ProviderServer

    constructor (server: ProviderServer)
      ensures api == server
    {
      api := server;
    }

    method Reconcile(n: string, env: Env) returns (ok: bool)
      modifies api
      ensures (api.Snapshot(), ok) == Drive(old(api.Snapshot()), n, Start, env)
    {
      ghost var s := api.Snapshot();
      if !env.read {
        return false;
      }
      if n !in api.providers {
        return true;
      }
      var provider := new ProviderCopy(api.providers[n]);
      ghost var p := provider.value;

      if provider.value.terminating {
        ok := Finalize(n, provider, env);
        return;
      }

      if !provider.value.finalizer {
        assert Drive(s, n, Start, env) == Drive(s, n, Adding(p), env);
        provider.value := provider.value.(finalizer := true);
        var updated := api.Update(n, provider, env.add);
        if !updated {
          return false;
        }
      }
      ghost var s1, p1 := api.Snapshot(), provider.value;
      assert Drive(s, n, Start, env) == Drive(s1, n, Probing(p1), env);

      if !env.tlsValid {
        FinishMarking(s1, n, p1, MarkedInvalid, env);
        ok := MarkInvalidSpec(n, provider, env);
        return;
      }
      if !env.clientBuilt {
        FinishMarking(s1, n, p1, MarkedDegraded, env);
        ok := MarkDegraded(n, provider, env);
        return;
      }
      api.limiters := api.limiters + {n};
      ghost var s2 := api.Snapshot();
      if !env.ping {
        FinishMarking(s2, n, p1, MarkedDegraded, env);
        ok := MarkDegraded(n, provider, env);
        return;
      }
      FinishMarking(s2, n, p1, MarkedReady, env);
      ok := MarkReady(n, provider, env);
    }

    method Finalize(n: string, provider: ProviderCopy, env: Env) returns (ok: bool)
      requires provider.value.terminating
      modifies api, provider
      ensures (api.Snapshot(), ok) ==
        if !old(provider.value).finalizer then (old(api.Snapshot()), true)
        else Drive(old(api.Snapshot()), n, ListingBindings(old(provider.value)), env)
    {
      ghost var s, p := api.Snapshot(), provider.value;
      if !provider.value.finalizer {
        return true;
      }
      var inUse, listed := HasDependents(n, env);
      FinishListing(s, n, p, env);
      if !listed {
        return false;
      }
      if inUse {
        return true;
      }
      api.limiters := api.limiters - {n};
      FinishRemoving(s, n, p, env);
      provider.value := provider.value.(finalizer := false);
      ok := api.Update(n, provider, env.remove);
    }

    /** Two lists, the second only when the first is empty; a failed list is an error. */
    method HasDependents(n: string, env: Env) returns (inUse: bool, listed: bool)
      ensures listed && inUse ==> exists k :: k in api.refs && api.refs[k] == n
      ensures listed && !inUse ==> forall k :: k in api.refs ==> api.refs[k] != n
      ensures listed <==> env.listBindings && (Referenced(api.Snapshot(), n, false) || env.listClusterBindings)
    {
      if !env.listBindings {
        return false, false;
      }
      if Referenced(api.Snapshot(), n, false) {
        return true, true;
      }
      if !env.listClusterBindings {
        return false, false;
      }
      inUse, listed := Referenced(api.Snapshot(), n, true), true;
      assert forall k :: k in api.refs && api.refs[k] == n ==> Referenced(api.Snapshot(), n, k.ClusterWide?);
    }

    method MarkReady(n: string, provider: ProviderCopy, env: Env) returns (ok: bool)
      modifies api, provider
      ensures provider.value == MarkProvider(old(provider.value), MarkedReady, env.now)
      ensures (api.Snapshot(), ok) == UpdateProviderStatus(old(api.Snapshot()), n, provider.value, env.status)
    {
      provider.value := provider.value.(observedGeneration := provider.value.generation);
      provider.value := provider.value.(lastVerifiedTime := Some(env.now));
      provider.SetStatusCondition(Condition(Ready, true, SyncSucceeded));
      provider.SetStatusCondition(Condition(Degraded, false, SyncSucceeded));
      ok := api.UpdateStatus(n, provider.value, env.status);
    }

    method MarkDegraded(n: string, provider: ProviderCopy, env: Env) returns (ok: bool)
      modifies api, provider
      ensures provider.value == MarkProvider(old(provider.value), MarkedDegraded, env.now)
      ensures api.Snapshot() == UpdateProviderStatus(old(api.Snapshot()), n, provider.value, env.status).0 && !ok
    {
      provider.value := provider.value.(observedGeneration := provider.value.generation);
      provider.SetStatusCondition(Condition(Ready, false, LDAPUnreachable));
      provider.SetStatusCondition(Condition(Degraded, true, LDAPUnreachable));
      var _ := api.UpdateStatus(n, provider.value, env.status);
      ok := false;
    }

    /** Leaves the Degraded condition as it was. */
    method MarkInvalidSpec(n: string, provider: ProviderCopy, env: Env) returns (ok: bool)
      modifies api, provider
      ensures provider.value == MarkProvider(old(provider.value), MarkedInvalid, env.now)
      ensures (api.Snapshot(), ok) == UpdateProviderStatus(old(api.Snapshot()), n, provider.value, env.status)
    {
      provider.value := provider.value.(observedGeneration := provider.value.generation);
      provider.SetStatusCondition(Condition(Ready, false, InvalidSpec));
      ok := api.UpdateStatus(n, provider.value, env.status);
    }
  }

  /** How the two lists end: blocked, failed, or free to release. */
  lemma FinishListing(s: Store, n: string, p: Provider, env: Env)
    ensures Drive(s, n, ListingBindings(p), env) ==
      if !env.listBindings then (s, false)
      else if Referenced(s, n, false) then (s, true)
      else if !env.listClusterBindings then (s, false)
      else if Referenced(s, n, true) then (s, true)
      else Drive(s, n, Releasing(p), env)
  {
    var (_, l1) := Advance(s, n, ListingBindings(p), env);
    assert Drive(s, n, ListingBindings(p), env) == Drive(s, n, l1, env);
    if l1.ListingClusterBindings? {
      var (_, l2) := Advance(s, n, l1, env);
      assert Drive(s, n, l1, env) == Drive(s, n, l2, env);
    }
  }

  lemma FinishRemoving(s: Store, n: string, p: Provider, env: Env)
    ensures Drive(s, n, Releasing(p), env)
         == UpdateFinalizer(s.(limiters := s.limiters - {n}), n, p.(finalizer := false), env.remove)
  {
    var (s1, l1) := Advance(s, n, Releasing(p), env);
    assert Drive(s, n, Releasing(p), env) == Drive(s1, n, l1, env);
    var (s2, l2) := Advance(s1, n, l1, env);
    assert Drive(s1, n, l1, env) == Drive(s2, n, l2, env);
  }

  lemma FinishMarking(s: Store, n: string, p: Provider, m: Mark, env: Env)
    ensures var (s', ok) := UpdateProviderStatus(s, n, MarkProvider(p, m, env.now), env.status);
      Drive(s, n, Marking(p, m), env) == (s', ok && !m.MarkedDegraded?)
  {
    var (s', l') := Advance(s, n, Marking(p, m), env);
    assert Drive(s, n, Marking(p, m), env) == Drive(s', n, l', env);
  }
}
