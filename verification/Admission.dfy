/** internal/webhook: at most one binding per scope maps a group to a role. */
module Admission {
  import opened Api

  /** Namespaced bindings share a scope within their namespace, cluster bindings all share one. */
  predicate SameScope(a: Key, b: Key) {
    match (a, b)
    case (Namespaced(m, _), Namespaced(n, _)) => m == n
    case (ClusterWide(_), ClusterWide(_)) => true
    case _ => false
  }

  predicate SameMapping(a: Spec, b: Spec) {
    a.groupDN == b.groupDN && a.role == b.role
  }

  /** rejectDuplicate: the first listed sibling with the same mapping, if any. */
  function RejectDuplicate(items: seq<(Key, Spec)>, k: Key, spec: Spec): Option<Key> {
    if items == [] then None
    else if items[0].0.name == k.name then RejectDuplicate(items[1..], k, spec)
    else if SameMapping(items[0].1, spec) then Some(items[0].0)
    else RejectDuplicate(items[1..], k, spec)
  }

  /** The items are the bindings stored in k's scope, in any order. */
  ghost predicate Lists(items: seq<(Key, Spec)>, m: map<Key, Spec>, k: Key) {
    && (forall i :: 0 <= i < |items| ==> SameScope(items[i].0, k) && items[i].0 in m && m[items[i].0] == items[i].1)
    && (forall j :: j in m && SameScope(j, k) ==> (j, m[j]) in items)
  }

  ghost predicate Conflicts(m: map<Key, Spec>, k: Key, spec: Spec, j: Key) {
    j in m && j != k && SameScope(j, k) && SameMapping(m[j], spec)
  }

  lemma {:induction false} RejectFinds(items: seq<(Key, Spec)>, k: Key, spec: Spec)
    ensures var r := RejectDuplicate(items, k, spec);
      && (r.Some? <==> exists i :: 0 <= i < |items| && items[i].0.name != k.name && SameMapping(items[i].1, spec))
      && (r.Some? ==> exists i :: 0 <= i < |items| && items[i].0 == r.value && r.value.name != k.name
                                  && SameMapping(items[i].1, spec))
  {
    if items != [] {
      RejectFinds(items[1..], k, spec);
      assert forall i :: 0 <= i < |items[1..]| ==> items[1..][i] == items[i + 1];
      assert forall i :: 0 < i < |items| ==> items[i] == items[1..][i - 1];
      assert items[0].0.name != k.name && SameMapping(items[0].1, spec) ==>
        RejectDuplicate(items, k, spec) == Some(items[0].0);
    }
  }

  lemma SameNameSameKey(a: Key, b: Key)
    requires SameScope(a, b)
    ensures a.name == b.name <==> a == b
  {
  }

  /** Another key of the same kind, and of the same namespace if the kind has one. */
  predicate Sibling(j: Key, k: Key) {
    j != k &&
    if j.Namespaced? then k.Namespaced? && j.namespace == k.namespace else k.ClusterWide?
  }

  /** With a successful list a request is rejected exactly when another stored binding of the same kind, and of the same
      namespace if it has one, maps the same group to the same role, whatever the order of the list; and the
      error names such a sibling. */
  lemma RejectIsExact(items: seq<(Key, Spec)>, m: map<Key, Spec>, k: Key, spec: Spec)
    requires Lists(items, m, k)
    ensures var r := RejectDuplicate(items, k, spec);
      && (r.Some? <==> exists j :: j in m && Sibling(j, k) && m[j].groupDN == spec.groupDN && m[j].role == spec.role)
      && (r.Some? ==>
            && r.value in m && Sibling(r.value, k)
            && m[r.value].groupDN == spec.groupDN && m[r.value].role == spec.role)
    ensures var r := RejectDuplicate(items, k, spec);
      && (r.Some? <==> exists j :: Conflicts(m, k, spec, j))
      && (r.Some? ==> Conflicts(m, k, spec, r.value))
  {
    RejectFinds(items, k, spec);
    var r := RejectDuplicate(items, k, spec);
    if r.Some? {
      var i :| 0 <= i < |items| && items[i].0 == r.value && r.value.name != k.name && SameMapping(items[i].1, spec);
      assert Conflicts(m, k, spec, r.value);
    }
    if j :| Conflicts(m, k, spec, j) {
      SameNameSameKey(j, k);
      assert (j, m[j]) in items;
      var i :| 0 <= i < |items| && items[i] == (j, m[j]);
    }
    if j :| j in m && Sibling(j, k) && m[j].groupDN == spec.groupDN && m[j].role == spec.role {
      assert Conflicts(m, k, spec, j);
    }
  }

  // ---------- Serial requests ----------

  /** `listing` is what the webhook's List returned; None is a failed List. */
  datatype Request =
    | Create(key: Key, spec: Spec, listing: Option<seq<(Key, Spec)>>)
    | Update(key: Key, spec: Spec, listing: Option<seq<(Key, Spec)>>)
    | Delete(key: Key)

  predicate Admitted(k: Key, spec: Spec, listing: Option<seq<(Key, Spec)>>) {
    listing.Some? && RejectDuplicate(listing.value, k, spec).None?
  }

  function Serve(m: map<Key, Spec>, r: Request): map<Key, Spec> {
    match r
    case Create(k, spec, listing) => if k !in m && Admitted(k, spec, listing) then m[k := spec] else m
    case Update(k, spec, listing) => if k in m && Admitted(k, spec, listing) then m[k := spec] else m
    case Delete(k) => m - {k}
  }

  function ServeAll(m: map<Key, Spec>, rs: seq<Request>): map<Key, Spec>
    decreases |rs|
  {
    if rs == [] then m else Serve(ServeAll(m, rs[..|rs| - 1]), rs[|rs| - 1])
  }

  ghost predicate ListsTruly(m: map<Key, Spec>, r: Request) {
    !r.Delete? && r.listing.Some? ==> Lists(r.listing.value, m, r.key)
  }

  /** Each request is served before the next one lists. */
  ghost predicate Serial(m: map<Key, Spec>, rs: seq<Request>)
    decreases |rs|
  {
    rs == [] || (Serial(m, rs[..|rs| - 1]) && ListsTruly(ServeAll(m, rs[..|rs| - 1]), rs[|rs| - 1]))
  }

  /** The conflicting pairs, each counted in both orders. */
  function Pairs(m: map<Key, Spec>): set<(Key, Key)> {
    set a, b | a in m && b in m && a != b && SameScope(a, b) && SameMapping(m[a], m[b]) :: (a, b)
  }

  lemma ServeAddsNoPair(m: map<Key, Spec>, r: Request)
    requires ListsTruly(m, r)
    ensures Pairs(Serve(m, r)) <= Pairs(m)
  {
    if !r.Delete? && Admitted(r.key, r.spec, r.listing) {
      RejectIsExact(r.listing.value, m, r.key, r.spec);
      var m' := Serve(m, r);
      forall a, b | (a, b) in Pairs(m') ensures (a, b) in Pairs(m) {
        if m' != m {
          if a == r.key {
            assert Conflicts(m, r.key, r.spec, b);
          } else if b == r.key {
            assert Conflicts(m, r.key, r.spec, a);
          }
        }
      }
    }
  }

  lemma SubsetSize<T>(a: set<T>, b: set<T>)
    requires a <= b
    ensures |a| <= |b|
  {
    assert b == a + (b - a);
  }

  /** Admission never makes things worse: from any starting set, even one that holds duplicates, no sequence of
      requests adds a conflicting pair. */
  lemma {:induction false} AdmissionNeverAddsPairs(m: map<Key, Spec>, rs: seq<Request>)
    requires Serial(m, rs)
    ensures Pairs(ServeAll(m, rs)) <= Pairs(m) && |Pairs(ServeAll(m, rs))| <= |Pairs(m)|
    decreases |rs|
  {
    if rs != [] {
      AdmissionNeverAddsPairs(m, rs[..|rs| - 1]);
      ServeAddsNoPair(ServeAll(m, rs[..|rs| - 1]), rs[|rs| - 1]);
    }
    SubsetSize(Pairs(ServeAll(m, rs)), Pairs(m));
  }

  /** No two bindings of one kind, and of one namespace if they have one, map the same group to the same role. */
  ghost predicate Unique(m: map<Key, Spec>) {
    forall a, b :: a in m && b in m && Sibling(a, b) ==> m[a].groupDN != m[b].groupDN || m[a].role != m[b].role
  }

  lemma UniqueIffNoPairs(m: map<Key, Spec>)
    ensures Unique(m) <==> Pairs(m) == {}
  {
    if Pairs(m) != {} {
      var p :| p in Pairs(m);
      assert p.0 in m && p.1 in m;
    } else {
      forall a, b | a in m && b in m && a != b ensures !(SameScope(a, b) && SameMapping(m[a], m[b])) {
        assert (a, b) !in Pairs(m);
      }
    }
  }

  /** Starting without duplicates there never are any. */
  lemma UniquenessIsInvariant(m: map<Key, Spec>, rs: seq<Request>)
    requires Serial(m, rs) && Unique(m)
    ensures Unique(ServeAll(m, rs))
  {
    UniqueIffNoPairs(m);
    AdmissionNeverAddsPairs(m, rs);
    UniqueIffNoPairs(ServeAll(m, rs));
  }

  // ---------- Racing requests ----------

  /** The request would write its object: a create of an absent one, an update of a present one. */
  predicate Enabled(m: map<Key, Spec>, r: Request) {
    !r.Delete? && (r.Create? <==> r.key !in m)
  }

  /** j conflicts with what the request writes, and did not conflict with the object it replaces. */
  ghost predicate NewConflict(m: map<Key, Spec>, r: Request, j: Key)
    requires !r.Delete?
  {
    Conflicts(m, r.key, r.spec, j) && !(r.key in m && SameMapping(m[j], m[r.key]))
  }

  /** A request that listed when the store was m0 and is served when it is m adds a conflicting pair exactly when
      no sibling conflicted in m0 and a new one does in m. */
  lemma RacePairsIff(m0: map<Key, Spec>, m: map<Key, Spec>, r: Request)
    requires ListsTruly(m0, r)
    ensures !(Pairs(Serve(m, r)) <= Pairs(m)) <==>
      && Enabled(m, r) && r.listing.Some? && (forall j :: !Conflicts(m0, r.key, r.spec, j))
      && exists j :: NewConflict(m, r, j)
  {
    if !r.Delete? && r.listing.Some? {
      RejectIsExact(r.listing.value, m0, r.key, r.spec);
      var m' := Serve(m, r);
      if j :| Enabled(m, r) && NewConflict(m, r, j) && Admitted(r.key, r.spec, r.listing) {
        assert (j, r.key) in Pairs(m') && (j, r.key) !in Pairs(m);
      }
      if p :| p in Pairs(m') && p !in Pairs(m) {
        assert m' != m && (p.0 == r.key || p.1 == r.key);
        assert NewConflict(m, r, if p.0 == r.key then p.1 else p.0);
      }
    }
  }

  /** Requests in flight: each has listed, and waits to be written if the webhook let it pass. */
  datatype Server = Server(stored: map<Key, Spec>, pending: map<nat, Request>)

  datatype Event = Arrive(id: nat, request: Request) | Commit(id: nat)

  function Step(s: Server, e: Event): Server {
    match e
    case Arrive(id, r) => if id in s.pending then s else s.(pending := s.pending[id := r])
    case Commit(id) =>
      if id in s.pending then Server(Serve(s.stored, s.pending[id]), s.pending - {id}) else s
  }

  function Play(s: Server, es: seq<Event>): Server
    decreases |es|
  {
    if es == [] then s else Step(Play(s, es[..|es| - 1]), es[|es| - 1])
  }

  /** Every request lists what is stored when it arrives. */
  ghost predicate Truthful(s: Server, es: seq<Event>)
    decreases |es|
  {
    es == [] ||
    var front, e := es[..|es| - 1], es[|es| - 1];
    Truthful(s, front) && (e.Arrive? ==> ListsTruly(Play(s, front).stored, e.request))
  }

  /** What was stored after the first i events. */
  function StoredAfter(s: Server, es: seq<Event>, i: nat): map<Key, Spec>
    requires i <= |es|
  {
    Play(s, es[..i]).stored
  }

  /** The request in flight under id arrived at event a. */
  ghost predicate ArrivedAt(s: Server, es: seq<Event>, id: nat, a: nat) {
    && a < |es| && es[a].Arrive? && es[a].id == id && id !in Play(s, es[..a]).pending
    && forall i :: a < i < |es| ==> es[i] != Commit(id)
  }

  /** Event c is the commit of another request that made j a conflicting sibling, which it has been since. */
  ghost predicate ConflictSince(s: Server, es: seq<Event>, k: Key, spec: Spec, j: Key, c: nat) {
    && c < |es| && es[c].Commit? && !Conflicts(StoredAfter(s, es, c), k, spec, j)
    && forall i: nat :: c < i <= |es| ==> Conflicts(StoredAfter(s, es, i), k, spec, j)
  }

  lemma AfterSnoc(s: Server, es: seq<Event>, e: Event, i: nat)
    requires i <= |es|
    ensures StoredAfter(s, es + [e], i) == StoredAfter(s, es, i)
    ensures StoredAfter(s, es, |es|) == Play(s, es).stored
    ensures Play(s, es + [e]) == Step(Play(s, es), e)
  {
    assert (es + [e])[..i] == es[..i];
    assert (es + [e])[..|es|] == es;
    assert es[..|es|] == es;
  }

  /** Whatever is in flight arrived at some event and listed what was stored then. */
  lemma {:induction false} PendingArrived(s: Server, es: seq<Event>, id: nat) returns (a: nat)
    requires s.pending == map[] && Truthful(s, es) && id in Play(s, es).pending
    ensures ArrivedAt(s, es, id, a) && es[a].request == Play(s, es).pending[id]
    ensures ListsTruly(StoredAfter(s, es, a), Play(s, es).pending[id])
    decreases |es|
  {
    var front, e := es[..|es| - 1], es[|es| - 1];
    assert es == front + [e];
    if id in Play(s, front).pending {
      a := PendingArrived(s, front, id);
      AfterSnoc(s, front, e, a);
      assert es[..a] == front[..a];
    } else {
      a := |front|;
    }
  }

  lemma SinceGrows(s: Server, es: seq<Event>, e: Event, k: Key, spec: Spec, j: Key, c: nat)
    requires ConflictSince(s, es, k, spec, j, c) && Conflicts(Play(s, es + [e]).stored, k, spec, j)
    ensures ConflictSince(s, es + [e], k, spec, j, c)
  {
    forall i: nat | i <= |es| ensures StoredAfter(s, es + [e], i) == StoredAfter(s, es, i) {
      AfterSnoc(s, es, e, i);
    }
    AfterSnoc(s, es + [e], e, |es|);
  }

  /** A conflict that was not there at event a began at a commit after it. */
  lemma {:induction false} ConflictBegan(s: Server, es: seq<Event>, k: Key, spec: Spec, j: Key, a: nat)
    returns (c: nat)
    requires a <= |es|
    requires !Conflicts(StoredAfter(s, es, a), k, spec, j) && Conflicts(Play(s, es).stored, k, spec, j)
    ensures a <= c && ConflictSince(s, es, k, spec, j, c)
    decreases |es|
  {
    assert es[..|es|] == es;
    var front, e := es[..|es| - 1], es[|es| - 1];
    assert es == front + [e];
    AfterSnoc(s, front, e, |front|);
    if Conflicts(Play(s, front).stored, k, spec, j) {
      AfterSnoc(s, front, e, a);
      c := ConflictBegan(s, front, k, spec, j, a);
      SinceGrows(s, front, e, k, spec, j, c);
    } else {
      c := |front|;
    }
  }

  /** With every list truthful and requests of any number racing, a commit adds a conflicting pair exactly when
      its request was let pass - no sibling conflicted at event a, when it listed - and since then, at a commit
      c, another request made a sibling conflict that does not already pair with the object to be replaced. */
  lemma CommitAddsPairsIff(s: Server, es: seq<Event>, id: nat) returns (a: nat)
    requires s.pending == map[] && Truthful(s, es) && id in Play(s, es).pending
    ensures ArrivedAt(s, es, id, a)
    ensures var now, r := Play(s, es).stored, Play(s, es).pending[id];
      !(Pairs(Play(s, es + [Commit(id)]).stored) <= Pairs(now)) <==>
        && Enabled(now, r) && r.listing.Some?
        && (forall j :: !Conflicts(StoredAfter(s, es, a), r.key, r.spec, j))
        && exists j, c: nat :: a < c && ConflictSince(s, es, r.key, r.spec, j, c) && NewConflict(now, r, j)
  {
    a := PendingArrived(s, es, id);
    var now, r := Play(s, es).stored, Play(s, es).pending[id];
    AfterSnoc(s, es, Commit(id), |es|);
    RacePairsIff(StoredAfter(s, es, a), now, r);
    if Enabled(now, r) && (forall j :: !Conflicts(StoredAfter(s, es, a), r.key, r.spec, j)) {
      if j :| NewConflict(now, r, j) {
        var c := ConflictBegan(s, es, r.key, r.spec, j, a);
        assert es[a].Arrive?;
        assert a < c && ConflictSince(s, es, r.key, r.spec, j, c) && NewConflict(now, r, j);
      }
    }
  }

  /** It does happen: two creates that both list before either is stored are both admitted. */
  lemma RacingCreatesBothAdmitted()
    ensures exists r1: Request, r2: Request ::
      ListsTruly(map[], r1) && ListsTruly(map[], r2) && Pairs(Serve(Serve(map[], r1), r2)) != {}
  {
    var spec := Spec("ad", "cn=admins", ClusterRoleRefSpec("edit"));
    var a, b := ClusterWide("a"), ClusterWide("b");
    var r1, r2 := Create(a, spec, Some([])), Create(b, spec, Some([]));
    var m := Serve(Serve(map[], r1), r2);
    assert a.name[0] != b.name[0];
    assert m == map[a := spec, b := spec];
    assert (a, b) in Pairs(m);
    assert ListsTruly(map[], r1) && ListsTruly(map[], r2);
  }
}
