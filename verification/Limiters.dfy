/** internal/ldapclient: the keyed registry of rate limiters. A limiter is opaque; what matters is its identity. */
module Limiters {
  import opened Api

  const DEFAULT_RATE := 5.0
  const DEFAULT_BURST := 10

  // ---------- The registry as a value ----------

  /** Limiters are numbered in the order they are made. */
  datatype Registry = Registry(made: nat, entries: map<string, nat>)

  datatype Op = Get(key: string) | Delete(key: string)

  function Apply(r: Registry, op: Op): Registry {
    match op
    case Get(key) => if key in r.entries then r else Registry(r.made + 1, r.entries[key := r.made])
    case Delete(key) => r.(entries := r.entries - {key})
  }

  /** The limiter a Get returns. */
  function Got(r: Registry, key: string): nat {
    if key in r.entries then r.entries[key] else r.made
  }

  function After(r: Registry, ops: seq<Op>, n: nat): Registry
    requires n <= |ops|
  {
    if n == 0 then r else Apply(After(r, ops, n - 1), ops[n - 1])
  }

  ghost predicate Distinct(r: Registry) {
    && (forall k :: k in r.entries ==> r.entries[k] < r.made)
    && (forall j, k :: j in r.entries && k in r.entries && r.entries[j] == r.entries[k] ==> j == k)
  }

  lemma {:induction false} DistinctAlways(r: Registry, ops: seq<Op>, n: nat)
    requires Distinct(r) && n <= |ops|
    ensures Distinct(After(r, ops, n))
  {
    if n > 0 {
      DistinctAlways(r, ops, n - 1);
    }
  }

  /** Limiter x was made and belongs to no key but k. */
  ghost predicate OnlyFor(r: Registry, x: nat, k: string) {
    x < r.made && forall j :: j in r.entries && r.entries[j] == x ==> j == k
  }

  /** Limiter x was made and belongs to no key any more. */
  ghost predicate Retired(r: Registry, x: nat) {
    x < r.made && forall j :: j in r.entries ==> r.entries[j] != x
  }

  predicate DeletedBetween(ops: seq<Op>, i: nat, j: nat, key: string) {
    exists m :: i < m < j && m < |ops| && ops[m] == Delete(key)
  }

  /** What has become of limiter x, which a Get of k returned: it still stands under k, or belongs to nobody. */
  ghost predicate Standing(r: Registry, x: nat, k: string, deleted: bool) {
    OnlyFor(r, x, k) && if deleted then Retired(r, x) else k in r.entries && r.entries[k] == x
  }

  lemma FirstStanding(r: Registry, k: string)
    requires Distinct(r)
    ensures Standing(Apply(r, Get(k)), Got(r, k), k, false)
  {
  }

  lemma StandingStep(r: Registry, op: Op, x: nat, k: string, deleted: bool)
    requires Distinct(r) && Standing(r, x, k, deleted)
    ensures Standing(Apply(r, op), x, k, deleted || op == Delete(k))
  {
  }

  /** DeletedBetween, one operation at a time. */
  predicate DeletedSoFar(ops: seq<Op>, i: nat, j: nat, k: string)
    requires i < j <= |ops|
    decreases j
  {
    j > i + 1 && (DeletedSoFar(ops, i, j - 1, k) || ops[j - 1] == Delete(k))
  }

  lemma {:induction false} DeletedSoFarIff(ops: seq<Op>, i: nat, j: nat, k: string)
    requires i < j <= |ops|
    ensures DeletedSoFar(ops, i, j, k) <==> DeletedBetween(ops, i, j, k)
    decreases j
  {
    if j > i + 1 {
      DeletedSoFarIff(ops, i, j - 1, k);
    }
  }

  lemma AfterNext(r: Registry, ops: seq<Op>, j: nat)
    requires j < |ops|
    ensures After(r, ops, j + 1) == Apply(After(r, ops, j), ops[j])
  {
  }

  /** The fate of the limiter that the Get at i returned, up to just before j. */
  lemma {:induction false} Fate(r: Registry, ops: seq<Op>, i: nat, j: nat, k: string)
    requires Distinct(r) && i < j <= |ops| && ops[i] == Get(k)
    ensures Standing(After(r, ops, j), Got(After(r, ops, i), k), k, DeletedSoFar(ops, i, j, k))
    decreases j
  {
    DistinctAlways(r, ops, j - 1);
    AfterNext(r, ops, j - 1);
    if j == i + 1 {
      FirstStanding(After(r, ops, i), k);
    } else {
      Fate(r, ops, i, j - 1, k);
      StandingStep(After(r, ops, j - 1), ops[j - 1], Got(After(r, ops, i), k), k, DeletedSoFar(ops, i, j - 1, k));
    }
  }

  /** Over any sequence of operations two Gets return the same limiter if and only if they use the same key with
      no Delete of it in between; in particular distinct keys never share one. */
  lemma SameLimiterIff(r: Registry, ops: seq<Op>, i: nat, j: nat, ki: string, kj: string)
    requires Distinct(r) && i < j < |ops| && ops[i] == Get(ki) && ops[j] == Get(kj)
    ensures Got(After(r, ops, i), ki) == Got(After(r, ops, j), kj) <==> ki == kj && !DeletedBetween(ops, i, j, ki)
  {
    Fate(r, ops, i, j, ki);
    DeletedSoFarIff(ops, i, j, ki);
    DistinctAlways(r, ops, j);
  }

  // ---------- The registry as the object it is ----------

  class Limiter {
    const rate: real
    const burst: int

    constructor (r: real, b: int)
      ensures rate == r && burst == b
    {
      rate, burst := r, b;
    }
  }

  class LimiterRegistry {
    const rate: real
    const burst: int
    var limiters: map<string, Limiter>
    // every limiter ever made, in order: the numbering of the value above
    ghost var made: seq<Limiter>
    ghost var model: Registry

    ghost predicate Valid()
      reads this
    {
      && model.made == |made| && Distinct(model)
      && (forall i, j :: 0 <= i < j < |made| ==> made[i] != made[j])
      && limiters.Keys == model.entries.Keys
      && (forall k :: k in limiters ==> limiters[k] == made[model.entries[k]])
    }

    constructor (r: real, b: int)
      ensures Valid() && model == Registry(0, map[]) && rate == r && burst == b
    {
      rate, burst, limiters := r, b, map[];
      made, model := [], Registry(0, map[]);
    }

    /** The limiter for key, made on first use with the defaults for a zero rate or burst. */
    method Get(key: string) returns (lim: Limiter)
      requires Valid()
      modifies this
      ensures Valid() && model == Apply(old(model), Op.Get(key)) && old(made) <= made
      ensures Got(old(model), key) < |made| && lim == made[Got(old(model), key)]
      ensures key !in old(limiters) ==>
        && fresh(lim)
        && lim.rate == (if rate == 0.0 then 5.0 else rate)
        && lim.burst == (if burst == 0 then 10 else burst)
    {
      if key in limiters {
        return limiters[key];
      }
      lim := new Limiter(if rate == 0.0 then DEFAULT_RATE else rate, if burst == 0 then DEFAULT_BURST else burst);
      limiters := limiters[key := lim];
      made, model := made + [lim], Apply(model, Op.Get(key));
    }

    method Delete(key: string)
      requires Valid()
      modifies this
      ensures Valid() && model == Apply(old(model), Op.Delete(key)) && made == old(made)
      ensures key !in limiters
    {
      limiters := limiters - {key};
      model := Apply(model, Op.Delete(key));
    }
  }
}
