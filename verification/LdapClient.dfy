/** internal/ldapclient: resolving a group to sorted usernames. The directory is an arbitrary answering
    function; replies are whole (paging happens below this level). */
module LdapClient {
  import opened Api
  import opened Ordering

  datatype Entry = Entry(attributes: map<string, seq<string>>) {
    function Values(attr: string): seq<string> {
      if attr in attributes then attributes[attr] else []
    }

    /** The first value, or "" if there is none. */
    function Value(attr: string): string {
      if Values(attr) == [] then "" else Values(attr)[0]
    }
  }

  /** Result codes as in section 4.1.9 of RFC 4511; only these two are told apart. */
  datatype Code = NoSuchObject | Referral | OtherCode

  datatype Reply = Entries(entries: seq<Entry>) | Failure(code: Code)

  datatype Error = ErrGroupNotFound | ErrOther

  datatype Resolution = Resolved(names: seq<string>) | Failed(error: Error)

  /** One run's worth of answers: the i-th member lookup may be answered differently from any other. */
  datatype Directory = Directory(connects: bool, group: Reply, reverse: Reply, member: (nat, string) -> Reply)

  datatype GroupLookup = GroupFound(entry: Entry) | GroupFailed(error: Error)

  function LookupGroup(reply: Reply): GroupLookup {
    match reply
    case Failure(NoSuchObject) => GroupFailed(ErrGroupNotFound)
    case Failure(_) => GroupFailed(ErrOther)
    case Entries(entries) => if entries == [] then GroupFailed(ErrGroupNotFound) else GroupFound(entries[0])
  }

  datatype NameLookup = Name(value: string) | NameFailed

  /** Missing objects, referrals and empty results count as no name; any other failure is an error. */
  function LookupUsername(reply: Reply, attr: string): NameLookup {
    match reply
    case Failure(NoSuchObject) => Name("")
    case Failure(Referral) => Name("")
    case Failure(OtherCode) => NameFailed
    case Entries(entries) => if entries == [] then Name("") else Name(entries[0].Value(attr))
  }

  // ---------- What the loops compute ----------

  /** The values that are not empty, in order. */
  function Compact(values: seq<string>): seq<string> {
    if values == [] then []
    else
      var n := |values| - 1;
      Compact(values[..n]) + if values[n] == "" then [] else [values[n]]
  }

  function ValuesOf(entries: seq<Entry>, attr: string): seq<string> {
    seq(|entries|, i requires 0 <= i < |entries| => entries[i].Value(attr))
  }

  /** member values, or uniqueMember values only if there is no member value. */
  function MemberDNs(group: Entry): seq<string> {
    if group.Values("member") == [] then group.Values("uniqueMember") else group.Values("member")
  }

  /** The answers to looking up the group's member values, in order. */
  function MemberReplies(dir: Directory, group: Entry): seq<Reply> {
    LookUpAll(dir, MemberDNs(group))
  }

  /** The answers to looking up these names one by one. */
  function LookUpAll(dir: Directory, dns: seq<string>): seq<Reply> {
    seq(|dns|, i requires 0 <= i < |dns| => dir.member(i, dns[i]))
  }

  predicate LookupsOk(replies: seq<Reply>, attr: string) {
    forall i :: 0 <= i < |replies| ==> LookupUsername(replies[i], attr).Name?
  }

  function NamesFound(replies: seq<Reply>, attr: string): seq<string>
    requires LookupsOk(replies, attr)
  {
    seq(|replies|, i requires 0 <= i < |replies| => LookupUsername(replies[i], attr).value)
  }

  /** Resolution succeeds: the reverse query was answered, and had hits or every member lookup was answered. */
  predicate Resolvable(dir: Directory, group: Entry, attr: string) {
    dir.reverse.Entries? && (dir.reverse.entries != [] || LookupsOk(MemberReplies(dir, group), attr))
  }

  /** One username for each reverse hit, or else for each member value; "" where there is none. */
  function Candidates(dir: Directory, group: Entry, attr: string): seq<string>
    requires Resolvable(dir, group, attr)
  {
    if dir.reverse.entries != [] then ValuesOf(dir.reverse.entries, attr)
    else NamesFound(MemberReplies(dir, group), attr)
  }

  method Usernames(entries: seq<Entry>, attr: string) returns (out: seq<string>)
    ensures out == Compact(ValuesOf(entries, attr))
  {
    ghost var values := ValuesOf(entries, attr);
    out := [];
    for i := 0 to |entries|
      invariant out == Compact(values[..i])
    {
      CompactNext(values, i);
      if entries[i].Value(attr) != "" {
        out := out + [entries[i].Value(attr)];
      }
    }
    assert values[..|entries|] == values;
  }

  lemma CompactNext(values: seq<string>, i: nat)
    requires i < |values|
    ensures Compact(values[..i + 1]) == Compact(values[..i]) + if values[i] == "" then [] else [values[i]]
  {
    assert values[..i + 1][..i] == values[..i];
  }

  method ResolveMembers(dir: Directory, group: Entry, attr: string) returns (r: Resolution)
    ensures r.Resolved? <==> Resolvable(dir, group, attr)
    ensures r.Resolved? ==> r.names == Compact(Candidates(dir, group, attr))
    ensures r.Failed? ==> r.error == ErrOther
  {
    if dir.reverse.Failure? {
      return Failed(ErrOther);
    }
    if |dir.reverse.entries| > 0 {
      var names := Usernames(dir.reverse.entries, attr);
      return Resolved(names);
    }
    var dns := group.Values("member");
    if |dns| == 0 {
      dns := group.Values("uniqueMember");
    }
    ghost var replies := MemberReplies(dir, group);
    assert dns == MemberDNs(group);
    ghost var found: seq<string> := [];
    var members: seq<string> := [];
    for i := 0 to |dns|
      invariant FoundUpTo(replies, attr, found, i) && members == Compact(found)
    {
      var reply := LookupUsername(dir.member(i, dns[i]), attr);
      if reply.NameFailed? {
        LookupFails(dir, group, attr, i);
        return Failed(ErrOther);
      }
      FoundNext(replies, attr, found, i, reply.value);
      CompactSnoc(found, reply.value);
      found := found + [reply.value];
      if reply.value != "" {
        members := members + [reply.value];
      }
    }
    AllFound(dir, group, attr, found);
    return Resolved(members);
  }

  /** The first i lookups were answered with these names. */
  ghost predicate FoundUpTo(replies: seq<Reply>, attr: string, found: seq<string>, i: nat) {
    |found| == i <= |replies| && forall j :: 0 <= j < i ==> LookupUsername(replies[j], attr) == Name(found[j])
  }

  lemma FoundNext(replies: seq<Reply>, attr: string, found: seq<string>, i: nat, v: string)
    requires i < |replies| && FoundUpTo(replies, attr, found, i) && LookupUsername(replies[i], attr) == Name(v)
    ensures FoundUpTo(replies, attr, found + [v], i + 1)
  {
  }

  lemma LookupFails(dir: Directory, group: Entry, attr: string, i: nat)
    requires dir.reverse == Entries([]) && i < |MemberDNs(group)|
    requires LookupUsername(dir.member(i, MemberDNs(group)[i]), attr).NameFailed?
    ensures !Resolvable(dir, group, attr)
  {
    assert MemberReplies(dir, group)[i] == dir.member(i, MemberDNs(group)[i]);
  }

  lemma AllFound(dir: Directory, group: Entry, attr: string, found: seq<string>)
    requires dir.reverse == Entries([])
    requires FoundUpTo(MemberReplies(dir, group), attr, found, |MemberReplies(dir, group)|)
    ensures Resolvable(dir, group, attr) && Candidates(dir, group, attr) == found
  {
  }

  lemma CompactSnoc(values: seq<string>, v: string)
    ensures Compact(values + [v]) == Compact(values) + if v == "" then [] else [v]
  {
    assert (values + [v])[..|values|] == values;
  }

  /** sort.Strings, in place. */
  method SortStrings(a: array<string>)
    modifies a
    ensures SortedPermutation(a[..], old(a[..]), StringLeq)
  {
    StringOrder();
    var was := a[..];
    ghost var example := SortExists(was, StringLeq);
    var out: seq<string> :| SortedPermutation(out, was, StringLeq);
    assert SortedPermutation(out, was, StringLeq);
    SameLength(out, was);
    forall i | 0 <= i < a.Length {
      a[i] := out[i];
    }
    assert a[..] == out;
  }

  /** All or nothing: a sorted list that holds every non-empty candidate as often as it was found and nothing
      else, or an error and no list; and the group-not-found error comes from the group lookup alone. */
  ghost predicate Answers(dir: Directory, attr: string, r: Resolution) {
    && (r.Resolved? <==>
          dir.connects && LookupGroup(dir.group).GroupFound? && Resolvable(dir, LookupGroup(dir.group).entry, attr))
    && (r.Resolved? ==> Sorted(r.names, StringLeq))
    && (r.Resolved? ==>
          multiset(r.names) == multiset(Candidates(dir, LookupGroup(dir.group).entry, attr))["" := 0])
    && (r == Failed(ErrGroupNotFound) <==>
          dir.connects && (dir.group == Failure(NoSuchObject) || dir.group == Entries([])))
  }

  /** The first value of the attribute of the entry is this name, and not empty. */
  predicate FirstValueIs(e: Entry, attr: string, name: string) {
    name != "" && attr in e.attributes && e.attributes[attr] != [] && e.attributes[attr][0] == name
  }

  /** The member values of the entry, and its uniqueMember values only if there is none. */
  predicate ListsMembers(e: Entry, dns: seq<string>) {
    if "member" in e.attributes && e.attributes["member"] != [] then dns == e.attributes["member"]
    else if "uniqueMember" in e.attributes then dns == e.attributes["uniqueMember"]
    else dns == []
  }

  /** The names are sorted, none is empty, and each occurs as often as there are entries it is the name of. */
  ghost predicate NamesEntries(names: seq<string>, replies: seq<Reply>, attr: string) {
    && Sorted(names, StringLeq) && "" !in names
    && forall x :: x != "" ==> multiset(names)[x] == |NamedBy(replies, attr, x)|
  }

  /** The replies whose first entry has this name. */
  function NamedBy(replies: seq<Reply>, attr: string, x: string): set<int> {
    set i | 0 <= i < |replies| && replies[i].Entries? && replies[i].entries != [] &&
            FirstValueIs(replies[i].entries[0], attr, x)
  }

  /** The result over the raw replies. The group is the first entry of its lookup; the names are those of the reverse
      hits if there are any, and otherwise those found by looking up each member value of the group; a reply that
      says no such object, or is a referral, or is empty, leaves no name, and any other failure fails it all. */
  ghost predicate FollowsReplies(dir: Directory, attr: string, r: Resolution) {
    if !dir.connects then r == Failed(ErrOther)
    else if dir.group == Failure(NoSuchObject) || dir.group == Entries([]) then r == Failed(ErrGroupNotFound)
    else if dir.group.Failure? || dir.reverse.Failure? then r == Failed(ErrOther)
    else if dir.reverse.entries != [] then
      r.Resolved? && NamesEntries(r.names, OneByOne(dir.reverse.entries), attr)
    else
      forall dns :: ListsMembers(dir.group.entries[0], dns) ==> FollowsLookups(LookUpAll(dir, dns), attr, r)
  }

  /** Each entry as a reply of its own. */
  function OneByOne(entries: seq<Entry>): seq<Reply> {
    seq(|entries|, i requires 0 <= i < |entries| => Entries([entries[i]]))
  }

  ghost predicate FollowsLookups(replies: seq<Reply>, attr: string, r: Resolution) {
    if Failure(OtherCode) in replies then r == Failed(ErrOther)
    else r.Resolved? && NamesEntries(r.names, replies, attr)
  }

  /** How often a name is found. */
  lemma {:induction false} CountAt(values: seq<string>, x: string)
    ensures multiset(values)[x] == |IndicesOf(values, x)|
  {
    if values == [] {
      assert IndicesOf(values, x) == {};
    } else {
      var n := |values| - 1;
      CountAt(values[..n], x);
      assert values == values[..n] + [values[n]];
      var before := IndicesOf(values[..n], x);
      assert IndicesOf(values, x) == if values[n] == x then before + {n} else before;
    }
  }

  function IndicesOf(values: seq<string>, x: string): set<int> {
    set i | 0 <= i < |values| && values[i] == x
  }

  /** Values found in replies, one for each, name the entries. */
  lemma ValuesName(names: seq<string>, values: seq<string>, replies: seq<Reply>, attr: string)
    requires Sorted(names, StringLeq) && multiset(names) == multiset(values)["" := 0] && |values| == |replies|
    requires forall i :: 0 <= i < |replies| ==> LookupUsername(replies[i], attr) == Name(values[i])
    ensures NamesEntries(names, replies, attr)
  {
    assert "" in names ==> "" in multiset(names);
    forall x | x != "" ensures multiset(names)[x] == |NamedBy(replies, attr, x)| {
      CountAt(values, x);
      forall i | 0 <= i < |replies| ensures i in IndicesOf(values, x) <==> i in NamedBy(replies, attr, x) {
        assert LookupUsername(replies[i], attr) == Name(values[i]);
      }
      assert IndicesOf(values, x) == NamedBy(replies, attr, x);
    }
  }

  lemma AnswersFollowReplies(dir: Directory, attr: string, r: Resolution)
    requires Answers(dir, attr, r)
    ensures FollowsReplies(dir, attr, r)
  {
    if r.Failed? {
      assert r.error.ErrGroupNotFound? || r.error.ErrOther?;
    }
    if dir.connects && dir.group.Entries? && dir.group.entries != [] && dir.reverse.Entries? {
      var group := dir.group.entries[0];
      if dir.reverse.entries != [] {
        HitsFollow(dir, group, attr, r);
      } else {
        forall dns | ListsMembers(group, dns) ensures FollowsLookups(LookUpAll(dir, dns), attr, r) {
          LookupsFollow(dir, group, attr, r, dns);
        }
      }
    }
  }

  lemma HitsFollow(dir: Directory, group: Entry, attr: string, r: Resolution)
    requires dir.reverse.Entries? && dir.reverse.entries != []
    requires r.Resolved? && Sorted(r.names, StringLeq)
    requires multiset(r.names) == multiset(Candidates(dir, group, attr))["" := 0]
    ensures NamesEntries(r.names, OneByOne(dir.reverse.entries), attr)
  {
    var hits := dir.reverse.entries;
    ValuesName(r.names, ValuesOf(hits, attr), OneByOne(hits), attr);
  }

  lemma LookupsFollow(dir: Directory, group: Entry, attr: string, r: Resolution, dns: seq<string>)
    requires dir.reverse == Entries([]) && ListsMembers(group, dns)
    requires r.Resolved? <==> Resolvable(dir, group, attr)
    requires r.Resolved? ==>
      Sorted(r.names, StringLeq) && multiset(r.names) == multiset(Candidates(dir, group, attr))["" := 0]
    requires r.Failed? ==> r.error == ErrOther
    ensures FollowsLookups(LookUpAll(dir, dns), attr, r)
  {
    var replies := MemberReplies(dir, group);
    assert dns == MemberDNs(group) && replies == LookUpAll(dir, dns);
    forall i | 0 <= i < |replies|
      ensures LookupUsername(replies[i], attr).NameFailed? <==> replies[i] == Failure(OtherCode)
    {
    }
    if r.Resolved? {
      ValuesName(r.names, NamesFound(replies, attr), replies, attr);
    }
  }

  method GetGroupMembers(dir: Directory, attr: string) returns (r: Resolution)
    ensures Answers(dir, attr, r)
    ensures FollowsReplies(dir, attr, r)
  {
    if !dir.connects {
      return Failed(ErrOther);
    }
    var group := LookupGroup(dir.group);
    if group.GroupFailed? {
      AnswersFollowReplies(dir, attr, Failed(group.error));
      return Failed(group.error);
    }
    var members := ResolveMembers(dir, group.entry, attr);
    if members.Failed? {
      AnswersFollowReplies(dir, attr, members);
      return members;
    }
    var names := members.names;
    CompactIsFilter(Candidates(dir, group.entry, attr));
    var a := new string[|names|](i requires 0 <= i < |names| => names[i]);
    assert a[..] == names;
    SortStrings(a);
    AnswersFollowReplies(dir, attr, Resolved(a[..]));
    return Resolved(a[..]);
  }

  // ---------- What the specification means ----------

  /** Compact drops the empty names and keeps every other one as often as it occurs. */
  lemma {:induction false} CompactIsFilter(values: seq<string>)
    ensures multiset(Compact(values)) == multiset(values)["" := 0]
  {
    if values != [] {
      var n := |values| - 1;
      CompactIsFilter(values[..n]);
      assert values == values[..n] + [values[n]];
    }
  }

  lemma {:induction false} CompactEmptyIff(values: seq<string>)
    ensures Compact(values) == [] <==> forall i :: 0 <= i < |values| ==> values[i] == ""
  {
    if values == [] {
    } else {
      var n := |values| - 1;
      CompactEmptyIff(values[..n]);
      assert forall i :: 0 <= i < n ==> values[..n][i] == values[i];
    }
  }

  predicate Skipped(reply: Reply) {
    reply == Failure(NoSuchObject) || reply == Failure(Referral) || reply == Entries([])
  }

  /** An entry that carries a username. */
  predicate HasUsername(reply: Reply, attr: string) {
    reply.Entries? && reply.entries != [] && reply.entries[0].Value(attr) != ""
  }

  /** The fallback succeeds exactly when every member lookup is an entry or one of the skipped cases, and then it
      keeps exactly the members whose entry carries a username: each leaves one name, the others none. */
  lemma FallbackIsExact(replies: seq<Reply>, attr: string)
    ensures LookupsOk(replies, attr) <==>
      forall i :: 0 <= i < |replies| ==>
        Skipped(replies[i]) || (replies[i].Entries? && replies[i].entries != [])
    ensures LookupsOk(replies, attr) ==>
      |Compact(NamesFound(replies, attr))| == |set i | 0 <= i < |replies| && HasUsername(replies[i], attr)|
  {
    forall i | 0 <= i < |replies|
      ensures LookupUsername(replies[i], attr).Name? <==>
        Skipped(replies[i]) || (replies[i].Entries? && replies[i].entries != [])
    {
    }
    if LookupsOk(replies, attr) {
      var values := NamesFound(replies, attr);
      CompactSize(values);
      assert NonEmptyAt(values) == set i | 0 <= i < |replies| && HasUsername(replies[i], attr);
    }
  }

  function NonEmptyAt(values: seq<string>): set<int> {
    set i | 0 <= i < |values| && values[i] != ""
  }

  lemma {:induction false} CompactSize(values: seq<string>)
    ensures |Compact(values)| == |NonEmptyAt(values)|
  {
    if values == [] {
      assert NonEmptyAt(values) == {};
    } else {
      var n := |values| - 1;
      CompactSize(values[..n]);
      var before := NonEmptyAt(values[..n]);
      assert NonEmptyAt(values) == if values[n] != "" then before + {n} else before;
    }
  }
}

/** From the directory's answers to the managed object. */
module DirectorySync {
  import opened Api
  import opened Ordering
  import opened RbacSync
  import P = Protocol
  import Convergence
  import opened LdapClient

  /** How Reconcile reads the outcome of GetGroupMembers. */
  function AnswerOf(r: Resolution): P.Answer {
    match r
    case Resolved(names) => P.Members(names)
    case Failed(ErrGroupNotFound) => P.NoSuchGroup
    case Failed(ErrOther) => P.QueryFailed
  }

  /** Every reverse hit lacks a username; or there is no hit, and no member lookup leads to an entry with one. */
  predicate AllNameless(dir: Directory, group: Entry, attr: string)
    requires dir.reverse.Entries?
  {
    if dir.reverse.entries != [] then
      forall i :: 0 <= i < |dir.reverse.entries| ==> dir.reverse.entries[i].Value(attr) == ""
    else
      var replies := MemberReplies(dir, group);
      forall i :: 0 <= i < |replies| ==> !HasUsername(replies[i], attr)
  }

  /** No API call fails; the answer is whatever the directory makes it. */
  predicate Faultless(env: P.Env) {
    && env.bindingRead && env.providerRead && env.rbRead
    && env.delete.NoFault? && env.create.NoFault? && env.update.NoFault? && env.status.NoFault?
  }

  /** From the directory to the managed object: after a reconcile without API faults, for every directory, the
      object grants exactly the role of the spec to exactly the names the raw replies lead to, each as often as it
      is found; or, if the resolution failed in any way, every RBAC object is as it was. */
  lemma ObjectFollowsDirectory(s: P.Store, k: Key, env: P.Env, dir: Directory, attr: string, r: Resolution)
    requires Convergence.ProviderKnown(s, k) && Faultless(env)
    requires Answers(dir, attr, r) && env.answer == AnswerOf(r)
    ensures FollowsReplies(dir, attr, r)
    ensures r.Failed? ==> P.Drive(s, k, P.Start, env).0.rbs == s.rbs
    ensures r.Resolved? ==>
      var after := P.RbacAt(P.Drive(s, k, P.Start, env).0, k);
      var found := Candidates(dir, LookupGroup(dir.group).entry, attr);
      && after.Some? && GrantsExactly(after.value, k, s.bindings[k], r.names)
      && Matches(after.value, Desired(k, s.bindings[k], r.names))
      && (forall x: string ::
            multiset(after.value.subjects)[UserSubject(x)] == if x == "" then 0 else multiset(found)[x])
      && (forall y :: y in after.value.subjects ==> y == UserSubject(y.name))
  {
    AnswersFollowReplies(dir, attr, r);
    if r.Failed? {
      UnansweredKeepsRbac(s, k, P.Start, env);
    } else {
      Convergence.Converges(s, k, r.names, env);
      MatchingGrantsExactly(P.RbacAt(P.Drive(s, k, P.Start, env).0, k).value, k, s.bindings[k], r.names);
    }
  }

  /** From the directory to the status: GroupNotFound is reported if and only if the group lookup says so, Ready if and
      only if the members were resolved, Degraded otherwise, and an error is returned in that case only. */
  lemma StatusFollowsDirectory(s: P.Store, k: Key, env: P.Env, dir: Directory, attr: string, r: Resolution)
    requires Convergence.ProviderKnown(s, k) && Faultless(env)
    requires Answers(dir, attr, r) && env.answer == AnswerOf(r)
    ensures var (s', ok) := P.Drive(s, k, P.Start, env);
      var missing := dir.connects && (dir.group == Failure(NoSuchObject) || dir.group == Entries([]));
      && k in s'.bindings
      && Convergence.Reports(s'.bindings[k].status, s.bindings[k],
           if r.Resolved? then Ready else if missing then GroupNotFound else Degraded,
           if r.Resolved? then SyncSucceeded else if missing then GroupMissing else LDAPUnreachable)
      && (r.Resolved? ==> !missing) && (ok <==> r.Resolved? || missing)
  {
    Convergence.StatusTellsOutcome(s, k, env);
  }

  lemma {:induction false} UnansweredKeepsRbac(s: P.Store, k: Key, l: P.Local, env: P.Env)
    requires !env.answer.Members?
    requires l.Start? || l.HaveBinding? || l.HaveProvider? || l.Failing? || l.Missing? || l.Finished?
    ensures P.Drive(s, k, l, env).0.rbs == s.rbs
    decreases P.Rank(l)
  {
    if !l.Finished? {
      var (s', l') := P.Advance(s, k, l, env);
      UnansweredKeepsRbac(s', k, l', env);
    }
  }

  lemma NamelessIffNoNames(dir: Directory, group: Entry, attr: string)
    requires Resolvable(dir, group, attr)
    ensures AllNameless(dir, group, attr) <==> Compact(Candidates(dir, group, attr)) == []
  {
    CompactEmptyIff(Candidates(dir, group, attr));
    if dir.reverse.entries == [] {
      NamelessReplies(MemberReplies(dir, group), attr);
    } else {
      var entries, values := dir.reverse.entries, Candidates(dir, group, attr);
      forall i | 0 <= i < |entries| ensures entries[i].Value(attr) == values[i] {
      }
      assert |values| == |entries|;
    }
  }

  lemma NamelessReplies(replies: seq<Reply>, attr: string)
    requires LookupsOk(replies, attr)
    ensures forall i :: 0 <= i < |replies| ==> (NamesFound(replies, attr)[i] == "" <==> !HasUsername(replies[i], attr))
  {
    forall i | 0 <= i < |replies| ensures NamesFound(replies, attr)[i] == "" <==> !HasUsername(replies[i], attr) {
      assert LookupUsername(replies[i], attr).Name?;
    }
  }

  /** A reconcile without API faults that the directory answered leaves an object without any subject exactly when
      every lookup was nameless. In particular it does when the directory answers every member lookup with a
      referral: those members are skipped on purpose, so this is no outage and no error is reported. */
  lemma EmptiedIffNameless(s: P.Store, k: Key, env: P.Env, dir: Directory, attr: string, r: Resolution)
    requires Convergence.ProviderKnown(s, k) && Faultless(env)
    requires Answers(dir, attr, r) && env.answer == AnswerOf(r) && r.Resolved?
    ensures P.RbacAt(P.Drive(s, k, P.Start, env).0, k).Some?
    ensures P.RbacAt(P.Drive(s, k, P.Start, env).0, k).value.subjects == [] <==>
            AllNameless(dir, LookupGroup(dir.group).entry, attr)
  {
    var group := LookupGroup(dir.group).entry;
    Convergence.Converges(s, k, r.names, env);
    var after := P.RbacAt(P.Drive(s, k, P.Start, env).0, k).value;
    CompactIsFilter(Candidates(dir, group, attr));
    SameLength(after.subjects, UserSubjects(r.names));
    SameLength(r.names, Compact(Candidates(dir, group, attr)));
    NamelessIffNoNames(dir, group, attr);
  }

  /** All members referred elsewhere: every access is removed although nothing failed. */
  lemma ReferralsEmptyTheGroup(s: P.Store, k: Key, env: P.Env, dir: Directory, attr: string, r: Resolution)
    requires Convergence.ProviderKnown(s, k) && Faultless(env)
    requires Answers(dir, attr, r) && env.answer == AnswerOf(r)
    requires dir.connects && LookupGroup(dir.group).GroupFound? && dir.reverse == Entries([])
    requires var dns := MemberDNs(LookupGroup(dir.group).entry);
      forall i :: 0 <= i < |dns| ==> dir.member(i, dns[i]) == Failure(Referral)
    ensures r == Resolved([])
    ensures P.RbacAt(P.Drive(s, k, P.Start, env).0, k).Some?
    ensures P.RbacAt(P.Drive(s, k, P.Start, env).0, k).value.subjects == []
  {
    var group := LookupGroup(dir.group).entry;
    assert Resolvable(dir, group, attr) && AllNameless(dir, group, attr);
    EmptiedIffNameless(s, k, env, dir, attr, r);
    CompactIsFilter(Candidates(dir, group, attr));
    NamelessIffNoNames(dir, group, attr);
    SameLength(r.names, Compact(Candidates(dir, group, attr)));
  }
}
