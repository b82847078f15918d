# Verified model of directory-rbac-operator

The operator copies the membership of directory groups into Kubernetes RoleBindings and ClusterRoleBindings.
This project models its reconcile loops, the diff that decides whether to write, member resolution, the
provider finalizer, admission and the watch mappers in Dafny 4.11, and proves what they keep over whole runs.
`dafny verify dfyconfig.toml` checks everything.

## How it is built

| file | what it holds |
|---|---|
| `Api.dfy` | the API objects; `Conditions`, the upsert of `meta.SetStatusCondition` |
| `Ordering.dfy` | sorted permutations in general, Go's order on strings |
| `RbacSync.dfy` | the desired object, `SubjectsEqual`, the status summary, the hashed text |
| `Protocol.dfy` | the API server calls and the binding reconcile loop as a state machine, one step per call |
| `Convergence.dfy` | one reconcile at a time: a reference semantics, convergence, interruption, order independence |
| `Runs.dfy` | all interleavings of reconciles with edits, deletions, drift, collection, faults and crashes |
| `Interleaving.dfy` | reconciles of different keys do not interfere, call by call |
| `FailSafe.dfy` | the fail-safe contract and adoption over those runs |
| `Reconciler.dfy` | the imperative reconciler, proved to be a run of the protocol |
| `ProviderProtocol.dfy`, `ProviderRuns.dfy`, `ProviderReconciler.dfy` | the same three layers for LDAPProvider, with readiness and limiters |
| `LdapClient.dfy` | member resolution against an arbitrary directory; `DirectorySync` joins it to the reconcile loop |
| `Admission.dfy`, `SecretCascade.dfy`, `Limiters.dfy` | the webhooks, the watch mappers, the limiter registry |

The two binding kinds run the same code on two object types. The model has one key type, `Key`, whose two
constructors are the two kinds, so every theorem holds for both and for stores that hold both.

A reconcile is a machine (`Protocol.Advance`) that makes one API or directory call per step. `Drive` runs it
alone to the end; `Runs.Next` interleaves any number of them with everything else. The imperative methods in
`Reconciler.dfy` follow the Go functions and are proved equal to `Drive`, and `Runs.DriveIsARun` shows that
`Drive` is one of the interleaved runs, so the results about the machine are
results about them. Every write may fail before its effect or lose its reply after it.

## Environment assumptions

- An update carrying an old resourceVersion is rejected. uids and resourceVersions are never reused.
- `generation` grows exactly when the spec changes. Only the operator writes the status subresource.
- An update of a RoleBinding or ClusterRoleBinding cannot change its roleRef.
- Reads return the current store. Every accepted write gives the object a new resourceVersion.
- The work queue hands a key to at most one worker at a time; a crash forgets the worker.
- The collector may remove an object that has owners, none of which is a live binding.

## Results where code and documentation differ

- The comment on `markDegraded` (internal/controller/rbacgroupbinding_controller.go:222-225) says a transient
  error never removes existing access. `Convergence.AccessLostIff` gives the exact case where it does: the role
  is being replaced, the Delete took effect and the Create did not. `AccessCanBeLost` is a concrete instance.
- README.md:57-60 of the repository says "membership never gets wiped out by an outage". For a directory that
  cannot be reached, or has no such group, `FailSafe.FailuresKeepAccess` proves it.
  `DirectorySync.EmptiedIffNameless` says exactly when a reconcile empties the object, and
  `DirectorySync.ReferralsEmptyTheGroup` is the case of a directory that refers every member elsewhere; that
  referrals are skipped is deliberate (internal/ldapclient/client.go:338-346).
- `SubjectsEqual` promises to ignore order. Its sort key leaves out `apiGroup`, so on ambiguous lists the answer
  may depend on the unstable sort; `RbacSync.SortIndependentIffDetermined` is the exact condition, which every
  list that `Subjects` builds meets.
- The finalizer is meant to make orphaned bindings impossible. `ProviderRuns.FinalizerIsExact` says which bindings
  it leaves orphaned: those whose reference was made after the list of their kind was taken
  (`ProviderRuns.LateReferenceOrphans` is an instance).
- internal/controller/ldapprovider_controller.go:46-49 means no limiter to outlive its provider.
  `ProviderRuns.LimiterOutlivesIff` says exactly when one does; `ProviderRuns.BareDeleteLeaks`,
  `ProviderRuns.LateDrawLeaks` and `ProviderRuns.RedrawLeaks` are instances of its three ways.
- The webhook prevents duplicates among requests served one after the other. `Admission.CommitAddsPairsIff` says
  exactly when racing requests get past it; `Admission.RacingCreatesBothAdmitted` is an instance.

## Model

| member | source | states |
|---|---|---|
| Runs.ReadyIsJustified | internal/controller/rbacgroupbinding_controller.go:83-142 | in every reachable state Ready=True for the current generation was persisted by one reconcile, and that same reconcile, with no end, crash or other reconcile in between, had read this generation and spec, then been answered by the directory, then left or found exactly the object for that spec and answer |
| Runs.DriveIsARun | internal/controller/rbacgroupbinding_controller.go:83-143 | a binding reconcile alone is the interleaved run of its own steps, so what holds of runs holds of it |
| Runs.ReadyIsReachable | internal/controller/rbacgroupbinding_controller.go:83-143 | from every reachable state with the provider present, a crash and a reconcile of the key, and no other label, lead to Ready=True for the same object, generation and spec |
| Runs.ObservedNeverAhead | internal/controller/rbacgroupbinding_controller.go:188-191 | observedGeneration never exceeds generation in any reachable state |
| Runs.ConditionsAlways | internal/controller/rbacgroupbinding_controller.go:203-282 | stored condition types are unique and, once any is set, exactly one of Ready, Degraded and GroupNotFound is true |
| Runs.SummaryDescribesOneList | internal/controller/rbacgroupbinding_controller.go:188-220 | in every reachable state the summary is unset if no markReady was persisted for this object, and otherwise is that of the list and time of the last one |
| Runs.SummaryWrittenByMarkReady | internal/controller/rbacgroupbinding_controller.go:188-288 | the only step of a run that changes the summary of an object is a markReady that takes effect over the very version that was read, and it becomes the last one |
| Runs.StoredSummaryIsFaithful | internal/rbacsync/diff.go:50-81 | with a sorting client the stored count, preview, flag, hash and time describe the list that the reconcile of the last persisted markReady was answered with, the preview being its smallest names |
| Runs.RoleNeverChangesInPlace | internal/controller/rbacgroupbinding_controller.go:158-178 | in every reachable state a step of the controller keeps the roleRef of every object that keeps its uid, even against an API server that would accept a new one |
| Runs.RoleBanNeverNeeded | internal/controller/rbacgroupbinding_controller.go:158-183 | in every reachable state the step of a reconcile is the same on a server that accepts any roleRef, so no Update is ever rejected for its role |
| Runs.UpdateSendsStoredRole | internal/controller/rbacgroupbinding_controller.go:171-183 | the object sent in an Update carries the role of the spec that was read, which is the stored role whenever the resourceVersion is current |
| Runs.AbsentOnlyForAnotherRole | internal/controller/rbacgroupbinding_controller.go:158-169 | the controller removes an object only at its Delete, only when the object that same reconcile had read, the one then stored, carried another role than its spec asks for, and goes on to Create unless the reply was lost |
| FailSafe.FailuresKeepAccess | internal/controller/rbacgroupbinding_controller.go:98-118 | while no reconcile of a live binding resolves members its object stays identical, whatever other bindings, edits, faults and the collector do |
| FailSafe.FailuresKeepSummary | internal/controller/rbacgroupbinding_controller.go:222-288 | such reconciles never change memberCount, preview, truncated flag, hash, lastSyncTime or the object reference |
| FailSafe.OutageKeepsRbacStore | internal/controller/rbacgroupbinding_controller.go:98-118 | a run of any length in which no reconcile resolves its members, whether for the directory, the provider or the API, leaves the whole RBAC store identical |
| FailSafe.OutageNeverResolves | internal/controller/rbacgroupbinding_controller.go:98-118 | while the directory never answers with members no reconcile comes to hold any, whatever else happens |
| FailSafe.ReadyIsManagedAndSafe | internal/controller/rbacgroupbinding_controller.go:120-186 | in runs without foreign edits of this key's object, through deletion and re-creation of bindings, Ready=True for the current generation means the object exists now with the right role, is owned by exactly the stored binding, and cannot be collected |
| FailSafe.AccessHasProvenance | internal/controller/rbacgroupbinding_controller.go:83-186 | in every reachable state without foreign edits of this key's object, that object is the one the run started with, or grants exactly the role of a spec that one reconcile of the key read to exactly the members that the same reconcile was answered |
| FailSafe.Adopts | internal/controller/rbacgroupbinding_controller.go:171-185 | after an error-free reconcile the live binding is the only owner, whoever owned the object before, and the collector cannot remove it |
| Convergence.DriveContent | internal/controller/rbacgroupbinding_controller.go:83-186 | a whole reconcile with any faults leaves the content given by an independent reference semantics |
| Convergence.DriveOwnKey | internal/controller/rbacgroupbinding_controller.go:120-186 | a reconcile changes only the RBAC object of its own key and only the status of its own binding |
| Convergence.Converges | internal/controller/rbacgroupbinding_controller.go:145-186 | from any store one error-free reconcile leaves the desired role, owner and subject multiset |
| Convergence.ReconcileGrantsExactly | internal/rbacsync/rolebinding.go:13-26 | in plain values: one error-free reconcile from any store leaves the spec's role with its API group, one User subject per member and nobody else, and the binding as sole controller |
| Convergence.Quiescent | internal/controller/rbacgroupbinding_controller.go:176-178 | a second error-free reconcile with the same members makes no RBAC write |
| Convergence.WritesIffNeeded | internal/controller/rbacgroupbinding_controller.go:171-185 | an error-free reconcile makes no RBAC write if and only if the object already grants exactly what it should, in any order of its subjects |
| Convergence.OutcomeIsExact | internal/controller/rbacgroupbinding_controller.go:48-58 | on success the outcome value holds if and only if it names the store change that was made |
| Convergence.StatusTellsOutcome | internal/controller/rbacgroupbinding_controller.go:98-142 | once both reads go through, and whatever else fails, the three conditions with their reason, observedGeneration, the summary and the returned error tell exactly how the reconcile went |
| Convergence.FailedReadsWriteNothing | internal/controller/rbacgroupbinding_controller.go:92-104 | a failed read of the binding or the provider returns the error and writes nothing; a binding that is gone is no error |
| Convergence.RecoversFromInterruption | internal/controller/rbacgroupbinding_controller.go:145-186 | stopped at any call with any faults, the next error-free reconcile reaches what an uninterrupted one reaches |
| Convergence.AccessLostIff | internal/controller/rbacgroupbinding_controller.go:158-169 | a reconcile leaves an existing object absent exactly when the role differed, the Delete took effect and the Create did not |
| Convergence.AccessCanBeLost | internal/controller/rbacgroupbinding_controller.go:222-229 | a concrete failing reconcile after which the object is gone |
| Convergence.BatchIsPointwise | internal/controller/rbacgroupbinding_controller.go:120-186 | in a batch of reconciles of distinct keys each has the effect it has alone, and no other key changes |
| Convergence.OrderIrrelevant | internal/controller/clusterrbacgroupbinding_controller.go:97-163 | reconciles of distinct bindings of both kinds, with any faults, give the same RBAC content in every order |
| Interleaving.KeysDoNotInterfere | internal/controller/clusterrbacgroupbinding_controller.go:66-163 | in any call-by-call interleaving with everything that can happen to other keys, what happens to a key is what its own labels alone make of it, up to uids and resourceVersions |
| Interleaving.InterleavedIsDrive | internal/controller/rbacgroupbinding_controller.go:83-186 | a whole reconcile interleaved with anything on other keys leaves its object and its binding as it would alone |
| Interleaving.ConvergesInterleaved | internal/controller/rbacgroupbinding_controller.go:145-186 | interleaved in that way an error-free reconcile still ends in the desired role, owner and subjects and in Ready for the current generation |
| Interleaving.InterleavingRefinesBatch | internal/controller/clusterrbacgroupbinding_controller.go:97-163 | every interleaving of one reconcile per key leaves each key the content that running them one by one leaves |
| Reconciler.BindingReconciler.Reconcile | internal/controller/rbacgroupbinding_controller.go:83-143 | the imperative loop leaves the store and result of the protocol run to its end |
| Reconciler.BindingReconciler.ReconcileRoleBinding | internal/controller/clusterrbacgroupbinding_controller.go:122-163 | the imperative create, delete-and-recreate or update leaves the store and outcome of the protocol's RBAC step |
| Reconciler.BindingReconciler.InSync | internal/controller/rbacgroupbinding_controller.go:171-178 | the test that skips the write is true if and only if role, owners and subject multiset match |
| Reconciler.BindingReconciler.MarkReady | internal/controller/rbacgroupbinding_controller.go:188-220 | the in-place status assignments give the Ready status and one status write |
| Reconciler.BindingReconciler.MarkDegraded | internal/controller/rbacgroupbinding_controller.go:234-258 | the in-place assignments keep the summary, give the Degraded status, one status write and always an error |
| Reconciler.BindingReconciler.MarkGroupNotFound | internal/controller/rbacgroupbinding_controller.go:265-288 | the in-place assignments keep the summary and give the GroupNotFound status and one status write |
| RbacSync.Subjects | internal/rbacsync/subject.go:14-24 | one User subject per member, in order |
| RbacSync.SubjectsEqual | internal/rbacsync/diff.go:13-29 | true implies equal multisets, and equal multisets imply true when the sort key determines the API group |
| RbacSync.SortedSubjects | internal/rbacsync/diff.go:31-44 | some sorted permutation of the input, any one, since the sort is unstable |
| RbacSync.SortIndependentIffDetermined | internal/rbacsync/diff.go:31-44 | all sorts of a list agree if and only if kind, namespace and name determine the API group within it |
| RbacSync.DesiredSubjectsAreExact | internal/rbacsync/subject.go:14-24 | against a list that Subjects builds the comparison is exact, whatever is stored |
| RbacSync.SummaryIsFaithful | internal/rbacsync/diff.go:46-81 | for a sorted list the preview is its smallest 20 names, count, flag and hash speak of that list, the count up to 2147483647, and the reference names the managed object |
| RbacSync.JoinSeparates | internal/rbacsync/diff.go:62-67 | the hashed text is the names in order with one line feed between two of them |
| Ordering.StringLeqIff | internal/ldapclient/client.go:190 | the order of names: a prefix comes first, otherwise the first differing character decides |
| RbacSync.SplitUndoesJoinIff | internal/rbacsync/diff.go:62-67 | splitting at newlines undoes the join exactly for newline-free lists other than the list of one empty name |
| RbacSync.HashedTextIdentifies | internal/rbacsync/diff.go:62-67 | on non-empty newline-free names the hashed text identifies the list |
| RbacSync.NewlineCollides | internal/rbacsync/diff.go:62-67 | with a newline in a name two different lists can hash the same text |
| ProviderRuns.FinalizerIsSafe | internal/controller/ldapprovider_controller.go:125-162 | when a provider with the finalizer leaves the store, a binding of either kind that still names it was made to while the provider was terminating |
| ProviderRuns.FinalizerIsExact | internal/controller/ldapprovider_controller.go:125-162 | with both lists and the removal as separate steps, a binding is left naming the removed provider if and only if it was made to name it after the list of its kind was taken and not withdrawn before the removal |
| ProviderRuns.RemovedByFinalizeOnly | internal/controller/ldapprovider_controller.go:72-81 | a provider that carries the finalizer leaves the store only at the removal step of its own reconcile |
| ProviderRuns.FinalizeIsExact | internal/controller/ldapprovider_controller.go:125-162 | for every outcome of the calls: which list is taken, what a failed list, a binding of either kind, a lost removal and a lost reply do to the provider, its limiter and the result |
| ProviderRuns.HealthCheckTellsOutcome | internal/controller/ldapprovider_controller.go:76-101 | a live provider ends up with the finalizer, and Ready and Degraded with their reason, lastVerifiedTime, the limiter and the returned error tell exactly how the health check and the status write went |
| ProviderRuns.FailedReadsWriteNothing | internal/controller/ldapprovider_controller.go:67-81 | a failed read writes nothing and a failed finalizer update ends the reconcile, both as errors; a provider that is gone, or terminating without the finalizer, is no error |
| ProviderRuns.DriveIsARun | internal/controller/ldapprovider_controller.go:59-101 | a provider reconcile alone is the interleaved run of its own steps |
| ProviderRuns.LateReferenceOrphans | internal/controller/ldapprovider_controller.go:125-162 | a run exists in which a reference made after the list of its kind was taken is left naming a provider that is gone |
| ProviderRuns.LimitersNeverLeak | internal/controller/ldapprovider_controller.go:140-145 | no entry outlives its provider if no reference is made while it is terminating, it is not deleted without the finalizer, and no binding reconcile is in flight for a dropped reference when the lists are taken |
| ProviderRuns.LimiterOutlivesIff | internal/controller/ldapprovider_controller.go:125-146 | in every reachable state the registry holds an entry for an absent provider if and only if that left with a limiter but no finalizer, or the limiter was drawn between its release and the removal, or was drawn after the removal |
| ProviderRuns.BareDeleteLeaks | internal/controller/ldapprovider_controller.go:46-49 | from every state without the provider a run exists that ends by deleting it while it has a limiter and no finalizer, and the limiter stays |
| ProviderRuns.LateDrawLeaks | internal/controller/grouperfactory.go:64-78 | with no deletion before the finalizer, a run exists that ends with a binding reconcile drawing the limiter when provider and entry are gone, and the entry is back |
| ProviderRuns.RedrawLeaks | internal/controller/ldapprovider_controller.go:140-145 | with no deletion before the finalizer, a run exists in which the limiter is drawn between its release and the removal that ends the run, and the entry stays |
| ProviderRuns.MarkReadsBack | internal/controller/ldapprovider_controller.go:164-231 | the Ready and Degraded conditions each mark leaves, with their reasons; markInvalidSpec leaves Degraded as it was |
| ProviderRuns.AppliedOk | internal/controller/ldapprovider_controller.go:164-231 | every mark keeps types unique and Ready and Degraded not both true |
| ProviderRuns.ConditionsFollowMarks | internal/controller/ldapprovider_controller.go:164-231 | in every reachable state a provider's types are unique, Ready and Degraded are not both true, and Ready is the one the last persisted mark leaves, reason included |
| ProviderRuns.ReadinessIsExact | internal/controller/readiness.go:33-63 | the readiness check succeeds if and only if the list does and every stored provider's last persisted mark is markReady; otherwise it reports the failed list, or the first listed provider that is not ready and why |
| ProviderRuns.VerifiedTimeIsExact | internal/controller/ldapprovider_controller.go:164-184 | in every reachable state lastVerifiedTime is the time of the last persisted markReady of that provider |
| ProviderReconciler.LDAPProviderReconciler.Reconcile | internal/controller/ldapprovider_controller.go:59-101 | the imperative loop leaves the store and result of the provider protocol run to its end |
| ProviderReconciler.LDAPProviderReconciler.Finalize | internal/controller/ldapprovider_controller.go:125-146 | the imperative finalize is the finalizing part of that run |
| ProviderReconciler.LDAPProviderReconciler.HasDependents | internal/controller/ldapprovider_controller.go:148-162 | true means some binding names the provider, false means none of either kind does, and a needed list that fails is an error |
| ProviderReconciler.LDAPProviderReconciler.MarkReady | internal/controller/ldapprovider_controller.go:164-184 | the in-place assignments give the Ready mark with observedGeneration and lastVerifiedTime, and one status write |
| ProviderReconciler.LDAPProviderReconciler.MarkDegraded | internal/controller/ldapprovider_controller.go:192-212 | the in-place assignments give the Degraded mark, one status write and always an error |
| ProviderReconciler.LDAPProviderReconciler.MarkInvalidSpec | internal/controller/ldapprovider_controller.go:219-231 | the in-place assignments set Ready false and observedGeneration, leave Degraded and lastVerifiedTime as they were, and make one status write |
| LdapClient.GetGroupMembers | internal/ldapclient/client.go:173-304 | over the raw replies, for every directory: the group is the first entry of its lookup, the names are the non-empty first values of the reverse hits or else of the looked-up member or uniqueMember values, sorted, each as often as found; and which replies fail it with which error |
| LdapClient.ResolveMembers | internal/ldapclient/client.go:264-304 | the reverse hits if there are any, otherwise the group's members, all or nothing |
| LdapClient.Usernames | internal/ldapclient/client.go:381-389 | the non-empty usernames of the entries in order |
| LdapClient.CompactIsFilter | internal/ldapclient/client.go:299-301 | dropping empty names keeps every other name as often as it occurs |
| LdapClient.FallbackIsExact | internal/ldapclient/client.go:286-303 | the fallback succeeds exactly when every member lookup is an entry or a missing, referred or entryless one, and leaves one name for each entry with a username |
| DirectorySync.EmptiedIffNameless | internal/ldapclient/client.go:264-304 | for every directory and what GetGroupMembers may answer on it, a reconcile without API faults leaves an object without subjects exactly when no reverse hit, or without hits no member lookup, carried a username |
| DirectorySync.ObjectFollowsDirectory | internal/controller/rbacgroupbinding_controller.go:104-142 | from the directory's raw replies to the object: it grants exactly the spec's role to exactly the names they lead to; if resolution failed every RBAC object stays as it was |
| DirectorySync.StatusFollowsDirectory | internal/controller/rbacgroupbinding_controller.go:111-118 | GroupNotFound is reported exactly when the group lookup says so, Ready exactly when the members were resolved, Degraded with an error otherwise |
| DirectorySync.ReferralsEmptyTheGroup | internal/ldapclient/client.go:338-346 | a directory that answers every member lookup with a referral empties the managed object without an error |
| Admission.RejectIsExact | internal/webhook/rbacgroupbinding_webhook.go:43-59 | with a successful list a request is rejected if and only if another stored binding of its kind, and namespace, has the same groupDN and the same role, and the error names one |
| Admission.AdmissionNeverAddsPairs | internal/webhook/rbacgroupbinding_webhook.go:26-59 | no serial sequence of requests adds a conflicting pair, from any starting set |
| Admission.UniquenessIsInvariant | internal/webhook/clusterrbacgroupbinding_webhook.go:26-56 | starting without two bindings of one kind, and namespace, with the same groupDN and role, there never are any |
| Admission.RacePairsIff | internal/webhook/rbacgroupbinding_webhook.go:43-59 | a request that listed one store and is written to another adds a conflicting pair if and only if no sibling conflicted in the first and a new one does in the second |
| Admission.CommitAddsPairsIff | internal/webhook/rbacgroupbinding_webhook.go:26-59 | in any run of racing requests a write adds a pair if and only if its request found no conflict when it listed and a conflicting sibling was written after that |
| Admission.RacingCreatesBothAdmitted | internal/webhook/clusterrbacgroupbinding_webhook.go:40-56 | two creates that list before either is stored are both admitted |
| SecretCascade.MapSecret | internal/controller/mappers.go:61-104 | the requests are exactly the join of bindings, existing providers and the Secret, less the providers whose list failed, no key twice |
| SecretCascade.MapProvider | internal/controller/mappers.go:16-56 | the requests are exactly the bindings that name the provider, no key twice, and none if the list fails |
| SecretCascade.SecretKeysName | internal/controller/indexers.go:43-51 | a provider is indexed under a Secret exactly when it names it as bind password or CA bundle |
| Limiters.SameLimiterIff | internal/ldapclient/ratelimit.go:31-54 | over any operations two Gets return the same limiter if and only if they use one key with no Delete of it in between |
| Limiters.LimiterRegistry.Get | internal/ldapclient/ratelimit.go:31-45 | returns the limiter the numbered registry says, fresh with the default rate and burst for zero settings on first use |
| Limiters.LimiterRegistry.Delete | internal/ldapclient/ratelimit.go:50-54 | removes the key's entry and nothing else |

## Left out

- Dialling, StartTLS, bind, timeouts and certificate loading; the directory is an arbitrary answering function.
- Paging, filter escaping, the token bucket and SHA-256. The hash is symbolic: a digest stands for its text.
- `validateTLSConfig` and `membershipFilter`; the outcome of the former is an input of the provider loop.
- Stale caches, backoff, requeue intervals and leader election; two operators at once are not modelled.
- Events, metrics, logs, condition messages and transition times.
- Errors of `SetControllerReference`, which cannot arise for an owner and object with the same key.
- Foreground deletion of a binding: a binding is removed at once, since it carries no finalizer.
- ProviderRuns.FinalizerIsExact: other finalizers are not modelled; with them a provider would stay longer.
- Interleaving.KeysDoNotInterfere: the key's own creation, whose uid depends on all writes, and its own collection, which looks at all bindings, are not covered; `Runs` and `FailSafe` cover them.
- Limiters.LimiterRegistry.Get: the mutex is not modelled; each call is one atomic step.
- SecretCascade.MapSecret: the index is computed from the stored objects; its incremental upkeep belongs to the cache library.
- Strings are sequences of code points; Go compares bytes, which agrees on valid UTF-8.
