# A verified model of capsule-proxy

capsule-proxy stands between tenants and the Kubernetes API server. It works out who a request comes
from, which objects that requester may see, and rewrites the request and the answer accordingly. This
project models the parts of it whose correctness is not visible from reading one function, and proves
what those parts promise, over every input, every run and every reachable state.

- **Reflection of RBAC** (`RoleBindings`, `RbacScan`, `ReflectionKey`, `KeyCollisions`, `ReflectorCache`,
  `ReflectorRuns`, `ReflectorCollisions`). The RoleBinding reflector answers "in which tenants may this subject do this" from a
  subject index and caches the answers under a string key, stamped with a generation that change
  notifications advance. The lookup is proved equal to a direct scan with Kubernetes' own subject rules,
  with the exact requesters and subjects for which that holds. The cache is a class whose slices never reach a
  caller, and a step system in which store writes, late notifications and any number of requests, reading
  one call at a time, interleave freely: whenever no notification is outstanding, every cached answer is the
  fresh one, exactly for the populations of questions of which no two different ones share a key.
- **Forwarded client certificates** (`Xfcc`, `XfccProofs`). The header parser is two nested
  quote-aware splits, a field parser and an unescaper. Splitting is lossless, unique and idempotent; once a
  header is split, later stages never meet an open quote or a dangling escape; writing a map with plain keys and
  parsing it gives the map back, with any blanks, any value quoted, and plain values unquoted.
- **Settings status** (`StatusProtocol`, `StatusWriter`). Every replica reconciles, since leader election
  is off. The protocol is a step system over one object, its deletions and re-creations, replicas that
  start and restart, with delayed watch events, lost replies, conflicts and requeues; the retried update is
  also a method against an API server others write to meanwhile.
- **Cluster-scoped rules** (`Patterns`, `Selectors`, `ClusterRules`, `RuleSelection`, `GroupVersions`,
  `Paths`, `AccessReviews`, `Validation`). Rules become label requirements; LIST merges them, GET takes the first that
  matches. What a LIST with requirements shows GET admits, from the printed URL to the returned selector;
  access reviews that name a version, or ask about rules that do not, advertise what is enforced; the glob
  matcher has an exact reading; rule validation accepts exactly the well-formed and supported blocks.
- **Requests** (`Identity`, `Headers`). Impersonation with its access reviews and last-in-first-out
  deferred changes, and removal of hop-by-hop headers in place.

`Wrappers`, `Text`, `Ordering` and `Kubernetes` hold what these share: results, Go's string operations,
Go's string order with `sort.Strings` and `sets.List`, and Kubernetes' naming rules.

Code that changes things step by step is modelled by methods and classes, proved against functions; the
properties are lemmas about those functions.

## Where the code falls short

Some promises do not hold on all inputs. In each case the model keeps the code's behaviour, and a lemma
or contract says exactly where.

- The subject index joins kind, namespace and name with `-` and looks requesters up under one reading of that
  text. For a requester, the lookup equals a scan of all bindings on every store of well-indexed subjects
  exactly when the requester is not a service account of a namespace with a dash in its name
  (`RbacScan.LookupExactIff`, with `RbacScan.DashedNamespaceCollides`). For a subject,
  `RbacScan.ExactIffDecoded` and `RbacScan.SubjectExactIff` say which ones the index gets right for all other
  requesters. It does not for a service account of a dashed namespace (`RbacScan.DashedSubjectIsMisread`), a
  service account whose namespace is left to the binding (`RbacScan.DefaultedNamespaceIsMissed`), a user or
  group with a namespace (`RbacScan.NamespacedUserIsMissed`), or a service account named by its username as a
  User (`RbacScan.AccountAsUserIsMissed`), with the corners that the naming rules cut out.
- The cache key identifies the request but for its groups exactly when no part of it contains the field
  separator (`ReflectionKey.RequestDecodedIff`); certificate names are taken unchecked, and two users can share
  a key (`ReflectionKey.FieldSeparatorCollides`). A group separator in a group makes one group of two
  (`ReflectionKey.GroupSeparatorCollides`). Without separators the only collision is that of no group with one
  group of the empty name (`ReflectionKey.KeysEqualIff`, `KeyCollisions.EmptyGroupCollides`).
- So the cache can serve one requester another's answer, with no notification outstanding and nothing written:
  for every two questions that share a key and differ in what they ask, some run does
  (`ReflectorCollisions.CollisionIsServed`). A clean question, without separators in its names and without an
  empty group, is served rightly next to another with its key exactly when the other's groups have names
  without a group separator (`ReflectorCollisions.PairServedRightlyIff`); clean questions among themselves
  always are (`ReflectorCollisions.CleanAreServedRightly`).
- A pattern with a star between literals, or with several stars, is not anchored at its ends.
  `Patterns.AnchoredIff` says for which patterns the matcher is the anchored glob. The source's comment on
  `matchPattern` calls the single-star cases a mere optimisation; they are in fact stricter than the general
  branch.
- An access review may leave the version out. It is then answered as the LIST on each version is, exactly for
  the group patterns that ask nothing of the version (`AccessReviews.VersionlessReviewsIff`,
  `GroupVersions.VersionBlindIff`); a rule for `apps/v1` is missed (`AccessReviews.VersionlessReviewIsMissed`).
  Rules accepted by validation against the discovered resources never depend on the version
  (`Validation.AcceptedRulesAreBlind`). For a
  namespaced resource no cluster-scoped handler is registered at all (internal/webserver/utils.go:94-98), while
  a wildcard rule still grants its review: the lemmas relate a review to the requirements the handler for the
  printed path would find, where there is one.
- A core-group path is recognised by the namespace gate only under version `v1`
  (`Paths.NamespacedRoundTrip`).
- A LIST without any requirement shows objects that carry the label `dontexistsignoreme`
  (`ClusterRules.HandleList`, `ClusterRules.ReservedLabelIsShown`). What LIST shows GET admits exactly when the
  LIST has a requirement or those of the GET leave such objects no way out
  (`ClusterRules.ListedObjectIsGettable`).
- LIST and GET work on single requirements, not on the selectors they come from. GET admits what a rule selects,
  provided the rule has a requirement (`RuleSelection.SelectedIsAdmitted`), and admits no more exactly when all
  requirements of the rule are alike (`RuleSelection.AnyIsAllIff`); a rule for a=1 and b=2 lets an object with
  a=1 alone through (`RuleSelection.GetAdmitsUnselected`). LIST shows all that some requirement matches exactly
  when the requirements have one share (`RuleSelection.MergedIsAnyIff`); of two rules for a=1 and b=2 it hides
  what only one selects (`RuleSelection.ListHidesSelected`). A rule with the empty selector, which selects
  everything, counts for nothing (`RuleSelection.EmptySelectorIsIgnored`).
- When the review of an impersonated user is refused after those of the groups were allowed,
  `GetUserAndGroups` returns the surviving groups along with the error, and only then
  (`Identity.GetUserAndGroups`, `Identity.ReviewedLeaks`); `Identity.ResolveUserAndGroups` discards them.
- Section 7.6.1 of RFC 9110 also asks to remove some fields that no Connection token names, among them
  Keep-Alive and TE. The code keeps those (`Headers.RemovalIsExact`).

## Model

| member | source | states |
|---|---|---|
| `RoleBindings.OwnerRoleBindingsIndexFunc` | internal/controllers/role_bindings.go:326-343 | a binding is filed under exactly the index values of its subjects |
| `RoleBindings.ReflectionRoleBindingsIndexFunc` | internal/controllers/role_bindings.go:345-353 | only bindings labelled for reflection are filed, under the same values |
| `RoleBindings.GetRoleBindingsForSubject` | internal/controllers/role_bindings.go:224-262 | each binding filed under one of the subject's keys, once; an error exactly for a malformed service account username |
| `RoleBindings.CollectBindings` | internal/controllers/role_bindings.go:242-254 | the per-key lists are merged without losing or mixing up bindings |
| `RoleBindings.BindingKeyInjective` | internal/controllers/role_bindings.go:250-253 | the namespace/name key separates the bindings of a store |
| `RoleBindings.GetUserNamespacesFromRequest` | internal/controllers/role_bindings.go:68-82 | the namespaces of the subject's bindings, sorted, without duplicates |
| `RoleBindings.RoleRules` | internal/controllers/role_bindings.go:175-210 | the rules of the Role in the binding's namespace or of the ClusterRole, nothing for a missing role or foreign reference |
| `RoleBindings.GetUserNamespacesForResource` | internal/controllers/role_bindings.go:166-222 | exactly the namespaces of reflected bindings of the subject with an admitting rule, sorted, without duplicates |
| `RbacScan.KeysHit` | internal/controllers/role_bindings.go:227-240 | what text of a subject a requester's keys contain, for every subject and requester |
| `RbacScan.SubjectHits` | internal/controllers/role_bindings.go:227-240 | a decoded subject's index value is among an unambiguous requester's keys iff Kubernetes would apply the subject |
| `RbacScan.UndecodedIsMisread` | internal/controllers/role_bindings.go:227-240 | every other subject is served to, or kept from, some unambiguous requester wrongly |
| `RbacScan.ExactIffDecoded` | internal/controllers/role_bindings.go:326-343 | the subjects the index gets right for all unambiguous requesters, by kind, namespace and name |
| `RbacScan.SubjectExactIff` | internal/controllers/role_bindings.go:166-343 | the same of whole lookups: with one binding of the subject, lookup and scan agree for all of them iff the subject is decoded |
| `RbacScan.BindingHits` | internal/controllers/role_bindings.go:224-262 | the index yields a binding iff it is labelled and one of its subjects applies, when no subject is misread for the requester |
| `RbacScan.RuleAdmitsIff` | internal/controllers/role_bindings.go:264-281 | a policy rule admits a request iff Kubernetes' rule admits it for objects of every name |
| `RbacScan.GrantsIff` | internal/controllers/role_bindings.go:174-218 | a binding counts iff the Role or ClusterRole it points at has such a rule |
| `RbacScan.TenantNameIff` | internal/controllers/role_bindings.go:143-159 | a namespace's tenant is that of its new label, without it of the old one, without both of its first Tenant owner |
| `RbacScan.AnswerIsScanned` | internal/controllers/role_bindings.go:109-141 | the answer lists in order, each once, exactly the tenants of the existing namespaces a scan with Kubernetes' rules finds, when no subject is misread for the requester |
| `RbacScan.LookupRefinesScan` | internal/controllers/role_bindings.go:166-262 | the indexed lookup answers as a scan of all bindings does, when no subject is misread for the requester |
| `RbacScan.DashedNamespaceCollides` | internal/controllers/role_bindings.go:330-339 | every service account of a dashed namespace is served another account's binding in some store |
| `RbacScan.AccountAsUserIsMissed` | internal/controllers/role_bindings.go:227-236 | every service account misses a binding that names it as a User in some store |
| `RbacScan.LookupExactIff` | internal/controllers/role_bindings.go:166-343 | the requesters for which lookup and scan agree on all stores of decoded subjects, exactly; and likewise on all stores of plain subjects |
| `RbacScan.DashedSubjectIsMisread` | internal/controllers/role_bindings.go:330-339 | an account of a dashed namespace whose binding goes to another account |
| `RbacScan.DefaultedNamespaceIsMissed` | internal/controllers/role_bindings.go:333-337 | an account with its namespace left to the binding is never found |
| `RbacScan.NamespacedUserIsMissed` | internal/controllers/role_bindings.go:333-337 | a user with a namespace is never found |
| `Ordering.LeqIff` | internal/controllers/role_bindings.go:285 | a text comes before another when it begins it or is smaller where they first differ |
| `ReflectionKey.GroupFieldEqual` | internal/controllers/role_bindings.go:284-287 | the joined sorted groups identify the multiset of groups, up to the one blank |
| `ReflectionKey.RequestDecodedIff` | internal/controllers/role_bindings.go:283-288 | a key determines username, verb, API group and resource among all questions iff the one it was made from has no field separator |
| `ReflectionKey.KeysEqualIff` | internal/controllers/role_bindings.go:283-288 | such a question and any other, with groups free of the group separator, share a key iff they are the same request with the same multiset of groups, or differ only as no group and the empty group |
| `ReflectionKey.AnswerByGroupSet` | internal/controllers/role_bindings.go:224-262 | the computed answer depends on the groups only as a set |
| `ReflectionKey.EqualKeysEqualAnswers` | internal/controllers/role_bindings.go:109-141 | a question that shares the key of a clean one, with groups that have names without a group separator, has its answer in every state of the stores |
| `KeyCollisions.SameAnswersIff` | internal/controllers/role_bindings.go:109-262 | two questions have the same answer in every state of the stores iff both are refused, or they have the same keys as a set and ask for the same verb, group and resource |
| `KeyCollisions.SharedAnswersIff` | internal/controllers/role_bindings.go:109-141 | a question that shares the key of a clean one has the same answer in every state of the stores iff its groups have names without a group separator, or both are refused |
| `KeyCollisions.EmptyGroupCollides` | internal/controllers/role_bindings.go:283-288 | no group and the group with the empty name share a key, and some stores answer them differently |
| `ReflectionKey.FieldSeparatorCollides` | internal/controllers/role_bindings.go:283-288 | for all u and g, user u, field separator, g without groups shares a key with user u in the group g, field separator |
| `ReflectionKey.GroupSeparatorCollides` | internal/controllers/role_bindings.go:284-287 | any two groups share a key with the one group that joins them |
| `ReflectorCache.RoleBindingReflector.constructor` | internal/controllers/role_bindings.go:48-66 | the cache starts empty at generation zero |
| `ReflectorCache.RoleBindingReflector.CachedResult` | internal/controllers/role_bindings.go:290-300 | a hit iff the entry is of the present generation, returned in a slice of its own |
| `ReflectorCache.RoleBindingReflector.StoreResult` | internal/controllers/role_bindings.go:309-316 | the entry is written iff no invalidation happened since the captured generation, into a slice the caller does not hold |
| `ReflectorCache.RoleBindingReflector.InvalidateResults` | internal/controllers/role_bindings.go:318-324 | the generation advances and no entry is left |
| `ReflectorCache.RoleBindingReflector.GetUserTenantNamesForResource` | internal/controllers/role_bindings.go:109-141 | a hit is returned as cached; a miss returns the fresh answer and caches it; an error caches nothing; nothing cached is shared with the caller |
| `ReflectorCache.RoleBindingReflector.CallerOverwrites` | internal/controllers/role_bindings.go:299-314 | whatever a caller writes into a slice it was ever given or handed in, no cached answer changes |
| `ReflectorCache.ComputeTenantNames` | internal/controllers/role_bindings.go:117-137 | the tenants of the reflected namespaces, sorted, without duplicates |
| `ReflectorCache.ResolveTenants` | internal/controllers/role_bindings.go:122-135 | missing namespaces and namespaces of no tenant contribute nothing, all others their tenant |
| `ReflectorCache.ReflectedTenantName` | internal/controllers/role_bindings.go:143-159 | the new label wins over the old one, that over the first owner of kind Tenant |
| `ReflectorRuns.ListStaysCurrent` | internal/controllers/role_bindings.go:244-254 | reading one more index key on unchanged stores keeps what was read equal to what the stores hold |
| `ReflectorRuns.CheckStaysCurrent` | internal/controllers/role_bindings.go:174-219 | likewise for reading one more role |
| `ReflectorRuns.ResolveStaysCurrent` | internal/controllers/role_bindings.go:124-135 | likewise for reading one more namespace |
| `ReflectorRuns.StoreKeepsInv` | internal/controllers/role_bindings.go:309-316 | the guarded store keeps the invariant even for a computation that began before earlier writes |
| `ReflectorRuns.StepKeepsInv` | internal/controllers/role_bindings.go:84-141 | every store write, delivery, read, guarded store and abort keeps the invariant |
| `ReflectorRuns.RunKeepsInv` | internal/controllers/role_bindings.go:84-141 | the invariant holds in every state of every interleaving |
| `ReflectorRuns.CachedEqualsFresh` | internal/controllers/role_bindings.go:84-141 | with no notification outstanding, a cached read gives the fresh answer on the present stores, unless a different question with the same key has been asked |
| `ReflectorRuns.CleanHasNoCollision` | internal/controllers/role_bindings.go:283-288 | no such question has been asked before a clean one when the groups of all askers have names without a group separator |
| `ReflectorRuns.QuietEntriesAreFresh` | internal/controllers/role_bindings.go:290-324 | with no notification outstanding, every entry present is readable and fresh for a question that was asked |
| `ReflectorRuns.HitIsFresh` | internal/controllers/role_bindings.go:110-113 | a hit taken with no notification outstanding is the fresh answer, unless a different question with the same key has been asked |
| `ReflectorCollisions.SomeRunCaches` | internal/controllers/role_bindings.go:109-141 | on any stores, every answered question has its answer cached in some run with no notification outstanding |
| `ReflectorCollisions.CollisionIsServed` | internal/controllers/role_bindings.go:110-113 | for any two different questions with one key, some run serves the one the other's answer |
| `ReflectorCollisions.ServedRightlyIff` | internal/controllers/role_bindings.go:84-141 | over all runs in which a population of questions is asked, every cached read of one of them with no notification outstanding is fresh, iff no two different ones share a key |
| `ReflectorCollisions.CleanAreServedRightly` | internal/controllers/role_bindings.go:84-141 | all clean questions together are served rightly |
| `ReflectorCollisions.PairServedRightlyIff` | internal/controllers/role_bindings.go:84-141 | a clean question and another with its key are served rightly iff the other's groups have names without a group separator, or both are refused |
| `ReflectorRuns.UndisturbedAnswerIsFresh` | internal/controllers/role_bindings.go:109-141 | a request that missed and was answered with no write and no notification outstanding meanwhile got the fresh answer, whatever other requests did |
| `Xfcc.SplitOutsideQuotes` | internal/request/xfcc.go:161-211 | the pieces at separators outside quotes, trimmed; an error for a dangling escape or an open quote |
| `Xfcc.UnescapeQuoted` | internal/request/xfcc.go:221-251 | backslashes are resolved left to right; an error for a last backslash with nothing to escape |
| `Xfcc.UnquoteXfccValue` | internal/request/xfcc.go:213-219 | a value in quotes is unescaped, any other is left alone |
| `Xfcc.ParseXfccFields` | internal/request/xfcc.go:116-159 | the map of all fields, the last of a repeated key winning, or the first failure in order |
| `XfccProofs.PiecesAreSplit` | internal/request/xfcc.go:161-211 | the pieces rejoin to the text, all cuts lie outside quotes, none is missed, and there is one more piece than cuts |
| `XfccProofs.SplitIsLossless` | internal/request/xfcc.go:161-211 | there is exactly one such way of cutting a text |
| `XfccProofs.SplitIsIdempotent` | internal/request/xfcc.go:161-211 | every returned piece opens and closes its quotes, is trimmed, and splits into just itself |
| `XfccProofs.EscapesAgree` | internal/request/xfcc.go:170-251 | inside quotes the splitter and the unescaper agree on whether an escape is open, whatever came before |
| `XfccProofs.ValueUnquotes` | internal/request/xfcc.go:137-153 | the value after any `=` of a balanced part can be unquoted, even when that `=` lies inside quotes |
| `XfccProofs.PartCannotFailLate` | internal/request/xfcc.go:131-156 | a balanced part fails only for a missing `=` or an empty field name |
| `XfccProofs.NoLateFailure` | internal/request/xfcc.go:112-251 | an entry of a split header parses iff each of its parts is blank or has a named field before an `=`; no quote or escape error is possible |
| `XfccProofs.EscapeStaysInside` | internal/request/xfcc.go:170-249 | an escaped text hides every separator and quote from the splitter and unescapes to the original |
| `XfccProofs.BareFieldParses` | internal/request/xfcc.go:131-156 | a value that does not begin and end with a quote is taken as it stands, without the blanks around key and value |
| `XfccProofs.WrittenFieldParses` | internal/request/xfcc.go:131-156 | a written field, quoted or plain, with any blanks, parses to its key and value |
| `XfccProofs.OpenQuoteIsReported` | internal/request/xfcc.go:200-206 | an open quote is refused as unterminated, and as dangling when an escape is open in it |
| `XfccProofs.OpenValueIsReported` | internal/request/xfcc.go:116-127 | the refusal of an open value names its key |
| `XfccProofs.NamelessIsReported` | internal/request/xfcc.go:131-148 | a part without an equals sign, or without a name before it, is refused as such |
| `XfccProofs.TrimmedEntryParses` | internal/request/xfcc.go:116-211 | blanks around an entry do not matter |
| `XfccProofs.RoundTrip` | internal/request/xfcc.go:112-251 | a written map is one entry, and that entry parses back to the map, for plain keys and arbitrary values, in every style of blanks and with plain values quoted or not, field by field |
| `StatusProtocol.StatusUpdateFacts` | internal/controllers/global_proxy_settings.go:68-80 | a status write that does not conflict leaves the object gone or up to date, its spec and identity untouched |
| `StatusProtocol.NoneLeadsToQueue` | internal/controllers/global_proxy_settings.go:29-46 | a replica whose cache lacks an existing object has an event to come that queues a reconcile |
| `StatusProtocol.StartKeepsInv` | main.go:341-350 | a replica that starts or restarts next to an existing object has a reconcile announced for it |
| `StatusProtocol.StepKeepsInv` | internal/controllers/global_proxy_settings.go:38-84 | every spec or metadata write, deletion, creation, start, restart, event, read, status write, lost reply and failure keeps the invariant |
| `StatusProtocol.RunKeepsInv` | internal/controllers/proxy_setting.go:38-84 | the invariant holds in every state of every run of any number of replicas |
| `StatusProtocol.NeverAhead` | internal/controllers/global_proxy_settings.go:68 | in every run the observed generation never exceeds the generation |
| `StatusProtocol.SettledAfterWrite` | internal/controllers/global_proxy_settings.go:68-82 | right after a successful status write both observed generations equal the generation |
| `StatusProtocol.SettledWhenIdle` | main.go:341-350 | one replica with no reconcile queued, running or announced is enough for the status to be current |
| `StatusProtocol.NeverDecreases` | internal/controllers/proxy_setting.go:57-84 | within the life of an object neither its generation nor its observed generation decreases |
| `StatusWriter.SnapshotStaysKnown` | internal/controllers/global_proxy_settings.go:59-66 | whatever others do, an object with the version that was read is still the object that was read |
| `StatusWriter.ApiServer.StatusWrite` | internal/controllers/global_proxy_settings.go:74-80 | a status write is refused for a missing object or another version, otherwise takes over the status alone |
| `StatusWriter.UpdateStatus` | internal/controllers/global_proxy_settings.go:57-84 | without an error the object is gone or up to date; an error takes interference in every attempt |
| `StatusWriter.Reconcile` | internal/controllers/global_proxy_settings.go:38-55 | nothing is written for an object missing from the cache, otherwise the retried update decides |
| `Patterns.MatchPattern` | internal/modules/clusterscoped/utils.go:90-129 | patterns without a star, the lone star and a single star at one end are anchored; all others ask for their literals in order |
| `Patterns.PlaceGreedily` | internal/modules/clusterscoped/utils.go:113-128 | the greedy search succeeds iff the literals can be placed in order without overlap, and never leaves the value |
| `Patterns.SimpleIff` | internal/modules/clusterscoped/utils.go:91-111 | the anchored branches are those of patterns without a star, the star alone, and one star at one end |
| `Patterns.MiddleStarFloats` | internal/modules/clusterscoped/utils.go:113-128 | a star between two literals takes them from anywhere in the value |
| `Patterns.LeftmostIsBest` | internal/modules/clusterscoped/utils.go:120-125 | taking the leftmost occurrence loses no placement |
| `Patterns.GeneralBranchIsWrapped` | internal/modules/clusterscoped/utils.go:113-128 | the general branch accepts exactly what the pattern wrapped in stars globs |
| `Patterns.GlobIsAccepted` | internal/modules/clusterscoped/utils.go:90-129 | every value the anchored glob accepts is accepted |
| `Patterns.LooseEnd` | internal/modules/clusterscoped/utils.go:113-128 | every pattern of the general branch with a literal at an end accepts some value the glob rejects |
| `Patterns.AnchoredIff` | internal/modules/clusterscoped/utils.go:90-129 | the matcher is the anchored glob exactly for the simple patterns and those with a star at both ends |
| `Selectors.CollectGroups` | internal/modules/utils/selector.go:45-67 | the values of all requirements, gathered per key and operator class |
| `Selectors.GroupIsValid` | internal/modules/utils/selector.go:69-75 | rebuilding a group of valid requirements never fails and gives its key, operator and the union of its values |
| `Selectors.GroupMeaning` | internal/modules/utils/selector.go:46-78 | an In group matches iff one of its requirements does, any other group iff all do |
| `Selectors.HandleListSelector` | internal/modules/utils/selector.go:42-81 | fails iff some group cannot be rebuilt; otherwise matches iff for each key with In-like requirements one of them matches, and all other requirements match |
| `Selectors.MergedBySet` | internal/modules/utils/selector.go:57-78 | the merged meaning depends neither on order nor on repetitions |
| `Selectors.FirstMatchingFacts` | internal/modules/utils/selector.go:33-37 | the first match exists iff some requirement matches, and none before it does |
| `Selectors.HandleGetSelector` | internal/modules/utils/selector.go:22-40 | not found iff the object is missing or no requirement matches it, otherwise the first that matches |
| `Selectors.MergedImpliesSome` | internal/modules/utils/selector.go:33-81 | whatever a merged selector of some requirements matches, one of them matches |
| `ClusterRules.AllowsOperation` | api/v1beta1/clusterresoure.go:26-39 | LIST is allowed when configured or by default, GET also when LIST is configured, any other operation only when configured |
| `ClusterRules.EffectiveOperations` | api/v1beta1/clusterresoure.go:43-65 | contains LIST when it is configured or nothing is, GET also when LIST is configured, and nothing else |
| `ClusterRules.MatchResource` | internal/modules/clusterscoped/utils.go:51-88 | a rule matches iff it covers the resource and one of its groups covers the group, or the group and version for a pattern with a slash |
| `ClusterRules.GetClusterScopeRequirements` | internal/modules/clusterscoped/utils.go:21-49 | the requirements of all matching rules that allow the operation, in order; broken and unselectable selectors are passed over |
| `ClusterRules.ListIsWithinGet` | internal/modules/clusterscoped/utils.go:17-49 | every requirement of a LIST is one of the GET on the same resource |
| `ClusterRules.RequirementsValid` | internal/modules/clusterscoped/utils.go:34-44 | collected requirements are valid, so that merging them cannot fail |
| `RuleSelection.OnlyServingRulesCount` | internal/modules/clusterscoped/utils.go:17-49 | dropping the rules that do not serve an operation changes none of its requirements |
| `RuleSelection.MatchingRuleCounts` | internal/modules/clusterscoped/utils.go:28-46 | a matching rule gives all its requirements to LIST and GET, one for GET alone to GET alone |
| `RuleSelection.GetAloneListsNothing` | internal/modules/clusterscoped/utils.go:17-20 | with rules for GET alone no LIST has a requirement |
| `ClusterRules.ShownIsAdmitted` | internal/modules/clusterscoped/get.go:99-107 | an object the merged LIST selector matches is matched by some GET requirement |
| `ClusterRules.HandleList` | internal/modules/clusterscoped/list.go:55-73 | never fails; no selector for other methods; without requirements only objects with the reserved label are shown |
| `ClusterRules.HandleGet` | internal/modules/clusterscoped/get.go:63-80 | no selector without requirements or for other methods, otherwise the answer for the named object |
| `ClusterRules.HandleSelector` | internal/modules/clusterscoped/get.go:82-108 | an error for an unknown resource or a missing object; else a selector iff some requirement matches the object, the first that does |
| `Selectors.InescapableIff` | internal/modules/clusterscoped/get.go:101-105 | all labels that carry a key match some of the requirements iff on some key these cover every value, and absence too unless it is the carried one |
| `ClusterRules.ListedObjectIsGettable` | internal/modules/clusterscoped/list.go:55-73 | every object shown at the collection URL is admitted at its own URL with a selector it matches, iff the LIST has requirements or those of the GET are inescapable |
| `ClusterRules.ReservedLabelIsShown` | internal/modules/clusterscoped/list.go:70-72 | without any rule an object with the reserved label is listed and cannot be fetched |
| `RuleSelection.LabelsTellApart` | internal/modules/utils/selector.go:46-54 | requirements that differ in key, operator class or values differ on some labels |
| `RuleSelection.AnyIsAllIff` | internal/modules/clusterscoped/get.go:101-105 | any requirement of a selector admits as much as the selector iff it has some and they are all alike |
| `RuleSelection.MergedIsAnyIff` | internal/modules/utils/selector.go:42-81 | the merged selector shows all that some requirement matches iff they are all In-like on one key, or all alike |
| `RuleSelection.RequirementsOf` | internal/modules/clusterscoped/utils.go:28-46 | the requirements are exactly those of the rules that match and allow the operation |
| `RuleSelection.SelectedIsAdmitted` | internal/modules/clusterscoped/get.go:101-105 | what a rule with some requirement selects is admitted |
| `RuleSelection.AdmittedIsSelected` | internal/modules/clusterscoped/get.go:101-105 | when each rule has a requirement and all of its are alike, GET admits just what some rule selects |
| `RuleSelection.ShownIsSelected` | internal/modules/clusterscoped/list.go:60-64 | when besides all requirements have one share, LIST shows just what some rule selects |
| `RuleSelection.GetAdmitsUnselected` | internal/modules/clusterscoped/get.go:101-105 | a rule of two requirements lets GET admit an object it does not select |
| `RuleSelection.ListHidesSelected` | internal/modules/utils/selector.go:69-78 | two rules on different keys make LIST hide an object one of them selects |
| `RuleSelection.EmptySelectorIsIgnored` | internal/modules/clusterscoped/utils.go:39-44 | a rule that selects everything contributes no requirement |
| `ClusterRules.ClusterScopedNamespaceNames` | internal/modules/namespace/utils.go:31-57 | exactly the names of the namespaces the merged LIST selector matches, none without requirements |
| `ClusterRules.NamespacesAreListedThere` | internal/modules/namespace/utils.go:21-25 | the rules consulted for namespaces are those of the path clients list them under |
| `ClusterRules.MatchesClusterScopedNamespace` | internal/modules/namespace/utils.go:63-78 | true iff some GET requirement on namespaces matches |
| `ClusterRules.ListedNamespaceIsAdmitted` | internal/modules/namespace/utils.go:31-78 | every namespace the LIST side names the GET side admits |
| `Paths.PathRoundTrip` | internal/modules/utils/gvk.go:40-58 | the printed collection path and every named path give back group, version and resource |
| `Paths.PathText` | internal/utils/gvk.go:20-34 | resources of the core group are found under /api, all others under /apis and their group |
| `Paths.GvkFromUrlIff` | internal/modules/utils/gvk.go:40-58 | a path is recognised as cluster-scoped iff, without the slashes at its ends, it has the segments of a collection or of one object |
| `Paths.NamespacedRoundTrip` | internal/webserver/namespacegate/mask.go:28-42 | a printed namespaced path is recovered whole, unless it is a core resource under a version other than v1 |
| `Paths.NamespacedPathText` | internal/webserver/namespacegate/mask.go:34-38 | objects in a namespace are found under namespaces and its name |
| `Paths.NamespacedIsPrinted` | internal/webserver/namespacegate/mask.go:28-42 | only printed paths, with or without the first slash, are recognised as namespaced |
| `Paths.ParsersAreDisjoint` | internal/webserver/namespacegate/mask.go:28-42 | no path at all is accepted by both parsers |
| `AccessReviews.SelfSubjectAccessReview.GrantAccess` | internal/authorization/middleware.go:123-127 | the review is allowed, no longer denied, with the proxy's reason |
| `AccessReviews.MutateAccessReview` | internal/authorization/middleware.go:46-94 | granted in exactly three cases, otherwise left as answered; what the API server allowed stays allowed |
| `AccessReviews.FoldingIgnoresCase` | internal/authorization/middleware.go:36-38 | verbs are compared up to the case of letters and nothing else |
| `AccessReviews.GrantedWithoutGateIff` | internal/authorization/middleware.go:55-78 | with the gate off exactly two things are granted: listing namespaces, and to tenant owners listing or watching a registered namespaced resource across namespaces |
| `AccessReviews.GrantedWithinNamespaceIff` | internal/authorization/middleware.go:62-94 | within a namespace nothing is granted but listing namespaces and, with the gate on, what the rules require |
| `AccessReviews.GetAloneGrantsNoList` | internal/authorization/middleware.go:86-94 | through rules for GET alone no list is granted or advertised |
| `AccessReviews.MutateRulesReview` | internal/authorization/middleware.go:95-113 | the API server's rules stay first and unchanged, the proxy's follow |
| `AccessReviews.MutateAuthorization` | internal/authorization/middleware.go:44-119 | each kind of review gets its case, any other kind is an error and is left alone |
| `GroupVersions.GlobAcrossSlash` | internal/modules/clusterscoped/utils.go:76-84 | a pattern with a slash asks group and version separately |
| `GroupVersions.VersionBlindIff` | internal/modules/clusterscoped/utils.go:76-84 | the group patterns that treat a missing version like every version, exactly |
| `GroupVersions.BlindRequirements` | internal/modules/clusterscoped/utils.go:21-88 | with only such patterns on a resource, a missing version gets the requirements of every version |
| `AccessReviews.ReviewsMatchHandlers` | internal/authorization/middleware.go:76-94 | outside the two shortcuts a list or get review, with its version or without one when no rule asks for it, is granted iff the printed path of its resource has requirements, and no other verb is |
| `AccessReviews.VersionlessReviewsIff` | internal/authorization/middleware.go:80-94 | with one rule, reviews without a version are answered as the LIST on every version iff the rule's pattern asks nothing of the version |
| `AccessReviews.PinnedVersionIsMissed` | internal/authorization/middleware.go:80-94 | a rule for one group and version grants no review that leaves the version out, though the LIST has requirements |
| `AccessReviews.ListGrantImpliesGetGrant` | internal/authorization/middleware.go:151-160 | what may be listed may be fetched |
| `AccessReviews.GetAllResourceRules` | internal/authorization/middleware.go:129-149 | one rule per configured rule, in order |
| `AccessReviews.VerbsAreConfigured` | internal/authorization/middleware.go:134-144 | a rule advertises list when LIST is configured or nothing is, and get also when LIST is configured |
| `AccessReviews.AdvertisedIsEnforced` | internal/authorization/middleware.go:129-149 | the advertised rules are the configured ones, with list and get among the verbs iff LIST and GET are allowed |
| `Headers.Header.RemovingHopByHopHeaders` | internal/webserver/webserver.go:795-818 | removal in place drops Connection and the fields it names and passes a requested upgrade on, as section 7.6.1 of RFC 9110 asks for those |
| `Headers.RemovalIsExact` | internal/webserver/webserver.go:795-818 | every other field survives untouched iff no Connection token names it, Upgrade included when no upgrade is passed on; otherwise Connection and the first Upgrade value remain |
| `Headers.NamedByTokens` | internal/webserver/webserver.go:802-808 | a Connection value names the fields of its tokens, by canonical name, and nothing else |
| `Headers.TokenIsFound` | internal/webserver/webserver.go:798-800 | a token is found in whatever case and with whatever blanks it is written |
| `Headers.RemovalByTokens` | internal/webserver/webserver.go:795-818 | with one Connection value, what its tokens name is removed, and an upgrade is passed on iff a token asks for it and its first type is not empty |
| `Headers.CanonicalIgnoresCase` | internal/webserver/webserver.go:805 | names that differ in case have one canonical name |
| `Headers.CanonicalOfWords` | internal/webserver/webserver.go:805 | each word of a canonical name is capitalised |
| `Headers.RemovalIsIdempotent` | internal/webserver/webserver.go:795-818 | a second removal changes nothing |
| `Identity.Authenticate` | internal/request/http.go:266-296 | the first configured provider with a user decides; unauthenticated iff there is none |
| `Identity.FilterGroups` | internal/request/impersonation.go:44-54 | keeps exactly the matching groups, in order |
| `Identity.IgnoreGroups` | internal/request/impersonation.go:56-67 | drops exactly the matching groups, keeping the order |
| `Identity.SurvivingMembers` | internal/request/impersonation.go:44-67 | a group survives iff it was asked for and passes both filters |
| `Identity.GetImpersonatingGroups` | internal/request/impersonation.go:29-42 | the requested groups that pass both filters, in order |
| `Identity.FiltersCompose` | internal/request/impersonation.go:31-39 | filtering in two passes is filtering by both conditions at once |
| `Identity.DefersAct` | internal/request/http.go:149-197 | run last in first out, the deferred changes give the acting identity |
| `Identity.ActsAs` | internal/request/http.go:180-197 | an impersonated service account acts with the three groups of its namespace, any other user with none, unless groups survive; without impersonation the authenticated user acts |
| `Identity.ImpersonationHeaders` | internal/request/impersonation.go:25-30 | the first Impersonate-User value and all Impersonate-Group values are what is impersonated, nothing when they are missing |
| `Identity.Impersonate` | internal/request/http.go:125-198 | groups are reviewed before the user, the first refusal stops, and only permitted changes are deferred |
| `Identity.GetUserAndGroups` | internal/request/http.go:110-201 | a cached identity is returned without reviews; otherwise the reviews asked are the needed ones in order, and success gives the surviving groups if any, else the service account's or none for an impersonated user, else the authenticated ones; an error reveals an identity iff the groups are permitted and the user is not |
| `Identity.ReviewsAskForAuthenticated` | internal/request/http.go:128-167 | every review is asked for the authenticated user and groups |
| `Identity.SuccessIsReviewed` | internal/request/http.go:125-175 | success implies an allowed review for every surviving group and for the impersonated user |
| `Identity.AdmittedIff` | internal/request/http.go:125-175 | a request is admitted iff every needed review would be allowed at its turn |
| `Identity.ReviewedIsSound` | internal/request/http.go:125-175 | end to end: only the authenticated identity asks, success is exactly all needed reviews allowed, and each impersonated name then has its allowed review |
| `Identity.ReviewedLeaks` | internal/request/http.go:149-175 | groups are already taken on at a refusal iff all their reviews are allowed and that of the user is not |
| `Identity.ResolveUserAndGroups` | internal/request/http.go:67-103 | the identity found is kept with the request and was reviewed, an error keeps nothing and reveals no identity |
| `Validation.AppendUnique` | internal/runtime/validation/cluster_resource.go:228-238 | the old values first, then the new ones, each once |
| `Validation.DiscoverClusterResources` | internal/runtime/validation/cluster_resource.go:40-85 | a group and resource are indexed iff some list has it cluster-scoped with a slash-free name, with the duplicate-free union of its kinds and verbs; partial discovery is no failure |
| `Validation.PrintedGroupParses` | internal/runtime/validation/cluster_resource.go:54-59 | the group written before a version is read back, a version alone is of the core group, a second slash is refused |
| `Validation.DiscoveryIndexesServer` | internal/runtime/validation/cluster_resource.go:53-82 | for what a server lists by group and version: each resource is filed under its own group iff it is listed there as cluster-scoped with a slash-free name, with all its kinds and verbs |
| `Validation.DiscoverServer` | internal/runtime/validation/cluster_resource.go:40-85 | discovery of what a server lists never fails and gives that index |
| `Validation.DiscoveredHaveKinds` | internal/runtime/validation/cluster_resource.go:74-80 | every discovered entry has a kind |
| `Validation.ValidateOperations` | internal/runtime/validation/cluster_resource.go:199-222 | one error for each unsupported operation and no other |
| `Validation.ValidateEntry` | internal/runtime/validation/cluster_resource.go:163-197 | one error for a missing kind and each missing verb and no other |
| `Validation.ValidateClusterResourceBlock` | internal/runtime/validation/cluster_resource.go:87-161 | reports exactly the malformations, or else exactly what the covered groups lack; no error iff the block is well formed and supported |
| `Validation.WellFormedIff` | internal/runtime/validation/cluster_resource.go:94-116 | a block is well formed iff it has none of the malformations |
| `Validation.GroupSupportedIff` | internal/runtime/validation/cluster_resource.go:123-157 | a covered group is free of errors iff it was discovered and has every covered resource with a kind and all enabled verbs |
| `Validation.AcceptedIff` | internal/runtime/validation/cluster_resource.go:87-161 | a block is accepted iff it is well formed, each group it asks for was discovered, and each resource it asks for has a kind and the verbs of the operations it configures |
| `Validation.MalformedIsReported` | internal/runtime/validation/cluster_resource.go:94-116 | each defect of shape has its own error, and then no other is reported |
| `Validation.UnsupportedIsReported` | internal/runtime/validation/cluster_resource.go:123-196 | each missing group, resource, kind and verb has its own error |
| `Validation.DiscoveredGroupsHaveNoSlash` | internal/runtime/validation/cluster_resource.go:54-63 | no discovered group has a slash in its name |
| `Validation.AcceptedRulesAreBlind` | internal/runtime/validation/cluster_resource.go:40-161 | tenants with only blocks accepted against the discovered resources have no rule that depends on the version |
| `Validation.AcceptedMatchesPlainly` | internal/runtime/validation/cluster_resource.go:40-161 | such a block, naming no group with a star, matches by plain membership of group and resource |
| `Kubernetes.SplitUsernameInverts` | internal/controllers/role_bindings.go:227-233 | a service account username belongs to one namespace and name |
| `Kubernetes.SplitOfMadeUsername` | internal/controllers/role_bindings.go:227-233 | every valid namespace and name has such a username |

## Left out

- ReflectorCache.RoleBindingReflector.CachedResult: the generation counter is unbounded; the code's wraps around after 2^64 invalidations. A miss returns an empty slice where the code returns nil.
- ReflectorRuns.CachedEqualsFresh: a store write and the queueing of its notification are one step, and notifications are neither lost nor merged. Errors of the readers appear only as aborted requests.
- RoleBindings.GetRoleBindingsForSubject: assumes what the API server enforces, namespaces named by DNS labels and one object per name. Copies made of the listed bindings are values.
- RbacScan.ExactIffDecoded: subjects of kinds other than User, Group and ServiceAccount, which the API server refuses.
- Xfcc.ParseXfccFields: texts are sequences of characters with a fixed set of blanks; invalid UTF-8 and further Unicode blanks are not modelled.
- StatusProtocol.RunKeepsInv: a replica that starts is told the present object, not an older one first; watch events arrive in order and none is merged, so a deletion and re-creation are seen as two; backoff and requeue timing are not modelled. Of the Ready condition only its observed generation is kept, so a write that would change nothing but a timestamp counts as no change.
- StatusWriter.UpdateStatus: errors of the API server other than conflict and not found appear only in StatusProtocol, as failures that requeue.
- Selectors.HandleListSelector: the operators greater-than and less-than, which the conversion of a label selector never yields. The error path for requirements that are not valid is kept.
- ClusterRules.GetClusterScopeRequirements: the conversion of a label selector is given by its outcome: broken, selecting nothing, or a list of valid requirements.
- ClusterRules.HandleSelector: discovery and object reads other than unknown resource and missing object do not fail.
- AccessReviews.MutateAccessReview: case is folded for ASCII letters only.
- Identity.Authenticate: token reviews, TLS peer certificates and forwarded certificates are given results.
- Identity.GetImpersonatingGroups: the regular expressions are arbitrary predicates.
- AccessReviews.ReviewsMatchHandlers: one way for a list of several rules; that no rule on the resource asks for a version is not needed when the patterns of several rules happen to cover all versions together. `AccessReviews.VersionlessReviewsIff` is exact pattern by pattern.
- Validation.AcceptedMatchesPlainly: that the named groups have no star is a condition; the API server admits no such group.
- Validation.DiscoverClusterResources: the answer of the discovery client is given; errors are values, their texts are left out.
- Headers.Header.RemovingHopByHopHeaders: header names and values are texts; the reverse proxy around it is not modelled.
- Certificate decoding, hashes, JWT and bearer token extraction: foreign libraries.
- `SanitizeImpersonationHeaders`, `CheckJWTMiddleware` and the rewriting of forbidden responses for missing namespaces: thin code around the HTTP server.
- The namespace list and get handlers beyond their cluster-scoped part, and the node, metric, runtime class and persistent volume modules: easy members of the same shape.
- The storage, priority and ingress class modules: their sort comparator is not an order, so only an easy soundness claim would remain.
