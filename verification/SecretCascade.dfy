/** The watch mappers: provider -> bindings, and the two-hop Secret -> provider -> bindings cascade. */
module SecretCascade {
  import opened Api

  datatype ProviderSpec = ProviderSpec(bindPasswordSecret: string, caSecret: Option<string>)

  // ---------- Index keys ----------

  function SecretKeys(p: ProviderSpec): seq<string> {
    [p.bindPasswordSecret] + if p.caSecret.Some? then [p.caSecret.value] else []
  }

  function ProviderKeys(providerRef: string): seq<string> {
    [providerRef]
  }

  /** What an index holds under a value: each object once, however often its keys repeat the value. */
  function Indexed<K, V>(objects: map<K, V>, keys: V -> seq<string>, value: string): set<K> {
    set k | k in objects && value in keys(objects[k])
  }

  ghost predicate NoRepeats<T>(s: seq<T>) {
    forall i, j :: 0 <= i < j < |s| ==> s[i] != s[j]
  }

  /** The cache lists an index bucket in any order. */
  method List<T(==)>(bucket: set<T>) returns (items: seq<T>)
    ensures NoRepeats(items) && forall x :: x in items <==> x in bucket
  {
    items := [];
    var rest := bucket;
    while rest != {}
      invariant NoRepeats(items) && rest <= bucket
      invariant forall x :: x in items <==> x in bucket && x !in rest
      decreases |rest|
    {
      var x :| x in rest;
      rest := rest - {x};
      items := items + [x];
    }
  }

  // ---------- The mappers ----------

  /** The binding's provider exists and names the Secret as bind password or as CA bundle. */
  predicate Reads(providers: map<string, ProviderSpec>, providerRef: string, secret: string) {
    providerRef in providers &&
    (providers[providerRef].bindPasswordSecret == secret || providers[providerRef].caSecret == Some(secret))
  }

  /** mapProviderToRBACGroupBindings over the bindings of one kind: name to providerRef. */
  method MapProvider(bindings: map<Key, string>, provider: string, listOk: bool) returns (requests: seq<Key>)
    ensures NoRepeats(requests)
    ensures forall k :: k in requests <==> listOk && k in bindings && bindings[k] == provider
  {
    if !listOk {
      return [];
    }
    var items := List(Indexed(bindings, ProviderKeys, provider));
    requests := [];
    for i := 0 to |items|
      invariant requests == items[..i]
    {
      requests := requests + [items[i]];
    }
    assert items[..|items|] == items;
  }

  /** mapSecretToRBACGroupBindings and mapSecretToClusterRBACGroupBindings, over the bindings of one kind.
      A failed provider list maps to nothing; a failed binding list skips that provider only. So when every
      list succeeds the requests are exactly the plain join of bindings, providers and Secret, each key once. */
  method MapSecret(providers: map<string, ProviderSpec>, bindings: map<Key, string>, secret: string,
                   providersOk: bool, bindingsOk: string -> bool) returns (requests: seq<Key>)
    ensures NoRepeats(requests)
    ensures forall k :: k in requests <==>
      providersOk && k in bindings && Reads(providers, bindings[k], secret) && bindingsOk(bindings[k])
  {
    requests := [];
    if !providersOk {
      return;
    }
    var hop := List(Indexed(providers, SecretKeys, secret));
    for i := 0 to |hop|
      invariant NoRepeats(requests)
      invariant forall k :: k in requests <==> k in bindings && bindings[k] in hop[..i] && bindingsOk(bindings[k])
    {
      assert forall x :: x in hop[..i + 1] <==> x in hop[..i] || x == hop[i];
      assert hop[i] !in hop[..i];
      if !bindingsOk(hop[i]) {
        continue;
      }
      var items := List(Indexed(bindings, ProviderKeys, hop[i]));
      assert forall k :: k in items <==> k in bindings && bindings[k] == hop[i];
      ghost var before := requests;
      for j := 0 to |items|
        invariant requests == before + items[..j]
      {
        requests := requests + [items[j]];
      }
      assert items[..|items|] == items;
      NoRepeatsAppend(before, items);
    }
    assert hop[..|hop|] == hop;
    forall k | k in bindings ensures bindings[k] in hop <==> Reads(providers, bindings[k], secret) {
      SecretKeysName(providers, bindings[k], secret);
    }
  }

  lemma NoRepeatsAppend<T>(a: seq<T>, b: seq<T>)
    requires NoRepeats(a) && NoRepeats(b) && forall x :: x in a ==> x !in b
    ensures NoRepeats(a + b)
  {
    assert forall i :: 0 <= i < |a| ==> a[i] in a;
    assert forall j :: 0 <= j < |b| ==> b[j] in b;
  }

  lemma SecretKeysName(providers: map<string, ProviderSpec>, name: string, secret: string)
    ensures name in Indexed(providers, SecretKeys, secret) <==> Reads(providers, name, secret)
  {
    if name in providers {
      var p := providers[name];
      assert secret in SecretKeys(p) <==> p.bindPasswordSecret == secret || p.caSecret == Some(secret);
    }
  }
}
