# Verified models of the data foundation console's algorithms

The console is a set of dynamic plugins for a storage dashboard. Under its components sit algorithms
that change shared state, reorder lists in place, emit patches, and join lists by composite string
keys. This project models them in Dafny and proves what they do, for every input, every history of
calls and every interleaving.

- `TabOrder` - placement of extension tabs by splicing the array that is being looped over.
- `S3Profiles`, `ConfigMapProtocol`, `ConfigMapProfiles`, `RetryBound`, `Retry` - the optimistic read-modify-write of a shared
  ConfigMap by any number of clients under retry. An attempt is two events, a read and a write,
  because the code between two awaits runs undisturbed; a write is accepted only at the version
  that was read (Kubernetes API Conventions, "Concurrency Control and Consistency").
- `JsonPatch`, `ObcAttach`, `StoragePoolPatches` - patch generators against an interpreter for the
  `add` operation (section 4.1 of RFC 6902; pointers by sections 3 and 4 of RFC 6901).
- `Grouping`, `SubscriptionGroups`, `ProtectedApps`, `ClusterPairs`, `Labels` - indexes and groupings
  against the scan of whole lists.
- `SyncInterval`, `DrStatus` - replication health and DR status as the clock advances.
- `StatefulRegex`, `ResourceProfiles` - helpers whose answers depend on earlier calls.
- `PolicyCleanup`, `Arbiter` - last policy cleans up; stretch-cluster topology.

Where code works in place, the model is a class or a loop that is proved equal to a function of its
input; the properties are then lemmas about that function. `Sequences`, `Strings`, `Options`,
`PlainObjects` and `Placements` hold shared definitions.

## What the proofs found

- A tab registered with only `after` is never moved: its `before` key is always present, and one
  that resolves to nothing ends the iteration. When it still ends up behind the named tab is
  `TabOrder.AfterFollowsIff`, when directly behind it, as documented, `TabOrder.AfterDirectlyIff`.
- A tab whose `before` moves it and whose `after` resolves too deletes another tab and appears
  twice. Unless a `before` names a later tab, tabs are lost exactly if one names an existing tab in
  both keys (`TabOrder.LosesNoneIff`).
- Repeating an upsert writes again if the stored profile has fields the given one lacks.
- Three retries are enough for four concurrent callers and for no more.
- A rejection of the retrier carries no error if the timeout is not positive or no attempt is allowed.
- The data-pool patch is rejected unless the StorageCluster has a cephFilesystems object.
- Grouping subscriptions throws for a matched subscription whose placement does not exist.
- Application keys of different namespaces can collide, and then count once; all unlabelled
  subscriptions of a namespace do.
- Active operations without an action share one bucket, whatever their clusters.
- An interval of zero hours or days is critical at once; one of zero minutes is healthy.
- A malformed bucket class name is accepted when it is validated a second time.
- After an s390x call for Balanced, Balanced may be allowed where Lean is not.
- Two DRClusters that share an S3 profile make the cleanup of both fail half-way, and the cleanup of
  one takes the profile away from the other.
- Policies deleted from pages that show each other leave their common DRCluster behind.
- Nodes without a zone are counted in a zone labelled `undefined`.
- A health code is dropped behind a reported one whose match ended as far in as the code is long.

## Model

| member | source | states |
|---|---|---|
| TabOrder.FindIndex | packages/odf/utils/horizontal-nav-tab.tsx:29 | the index of the first tab with the named id, or -1; a key holding `undefined` finds nothing |
| TabOrder.TabArray.PlaceBefore | packages/odf/utils/horizontal-nav-tab.tsx:34-44 | the splices of the `before` step, with their index corrections, take the tab out and put it directly in front of its target |
| TabOrder.TabArray.PlaceAfter | packages/odf/utils/horizontal-nav-tab.tsx:53-63 | the splices of the `after` step put the tab directly behind its target and delete whatever stands at the loop index, stale or not |
| TabOrder.TabArray.Iterate | packages/odf/utils/horizontal-nav-tab.tsx:26-64 | one iteration in place is one `Step`: both moves, and the `continue` when a key resolves to nothing |
| TabOrder.TabArray.SortPages | packages/odf/utils/horizontal-nav-tab.tsx:24-66 | the loop terminates and the array ends as the composition of its steps, at its old length |
| TabOrder.AppendNew | packages/odf/utils/horizontal-nav-tab.tsx:75-94 | every extension is appended unless its id is taken, by a static page or an earlier extension |
| TabOrder.UseSortPages | packages/odf/utils/horizontal-nav-tab.tsx:68-98 | the hook's result: the static pages alone until extensions have resolved, then the sorted deduplicated list |
| TabOrder.StepContents | packages/odf/utils/horizontal-nav-tab.tsx:26-64 | the exact effect of one iteration on the contents: one tab is replaced by a second copy of the moved one, and they differ exactly when the iteration clobbers |
| TabOrder.StepBefore | packages/odf/utils/horizontal-nav-tab.tsx:33-44 | an iteration on a tab that names another in `before` only puts it directly in front of that tab |
| TabOrder.StepBehind | packages/odf/utils/horizontal-nav-tab.tsx:46-63 | one on a tab without a `before` key that names another in `after` puts it directly behind that tab |
| TabOrder.StepMovesOnly | packages/odf/utils/horizontal-nav-tab.tsx:26-64 | unless a tab names itself in `after`, or two others, its iteration leaves all other tabs in their order |
| TabOrder.SortFromKeepsWithin | packages/odf/utils/horizontal-nav-tab.tsx:24-66 | sorting never invents a tab |
| TabOrder.SortFromPermutesIff | packages/odf/utils/horizontal-nav-tab.tsx:24-66 | for all distinct tabs the result is a permutation if and only if no iteration, when it runs, moves a tab away from the loop index by `before` and then runs its `after` step |
| TabOrder.LosesNoneIff | packages/odf/utils/horizontal-nav-tab.tsx:24-66 | for all distinct tabs none of which names in `before` what stands right of it, that is: no tab names an existing tab in both keys |
| TabOrder.NamingForwardCanKeep | packages/odf/utils/horizontal-nav-tab.tsx:34-64 | a tab that names the next one in `before` and another in `after`, without loss, so naming two does not decide there |
| TabOrder.CleanWithoutDoubleNaming | packages/odf/utils/horizontal-nav-tab.tsx:24-66 | if no tab resolves in both keys, the result is a permutation |
| TabOrder.DoubleNamingLosesATab | packages/odf/utils/horizontal-nav-tab.tsx:45-64 | a concrete list of distinct tabs that loses one |
| TabOrder.HookKeepsTabsIff | packages/odf/utils/horizontal-nav-tab.tsx:73-98 | in the hook, for any extensions, ids stay distinct, and the tabs the same, if and only if no iteration clobbers; no tab resolving in both keys suffices |
| TabOrder.HookLosesNoneIff | packages/odf/utils/horizontal-nav-tab.tsx:73-98 | for keyless pages and extensions whose `before` names a page, an extension registered earlier, or nothing, no tab is lost if and only if no added extension names an existing tab in both keys |
| TabOrder.SortedIsArranged | packages/odf/utils/horizontal-nav-tab.tsx:24-98 | closed form of the result: each page behind the block of tabs naming it, then the tabs that name no page |
| TabOrder.SortedIsLaidOut | packages/odf/utils/horizontal-nav-tab.tsx:24-98 | pages keep their order, blocks are contiguous, in registration order and end right before their page, all other tabs come after all pages, nothing is lost |
| TabOrder.HookLaysOut | packages/odf/utils/horizontal-nav-tab.tsx:68-98 | the same for static pages without keys and any extensions whose `before` names a page or nothing |
| TabOrder.AfterAloneNeverMoves | packages/odf/utils/horizontal-nav-tab.tsx:26-33 | a page whose `before` resolves to nothing never moves, whatever its `after` says |
| TabOrder.AfterNeedNotFollow | packages/odf-plugin-sdk/extensions/horizontal-nav-tab.ts:16-17 | the documented placement after the named tab fails for a concrete extension with only `after`, which does not stand directly behind it |
| TabOrder.AfterFollowsIff | packages/odf/utils/horizontal-nav-tab.tsx:26-33 | such an extension does end up behind the tab it names if and only if that is a static page, goes before one itself, or was registered earlier |
| TabOrder.AfterDirectlyIff | packages/odf-plugin-sdk/extensions/horizontal-nav-tab.ts:16-17 | it stands directly behind the tab it names, as documented, if and only if it does so in registration order with the extensions that go before a page taken out |
| TabOrder.DirectlyBehindIff | packages/odf/utils/horizontal-nav-tab.tsx:24-66 | the same for the sorting alone, any id and any tab that goes before no page |
| TabOrder.AddedSpec | packages/odf/utils/horizontal-nav-tab.tsx:75-94 | deduplication keeps ids distinct, covers every extension's id and adds only registered pages |
| TabOrder.AddedInOrder | packages/odf/utils/horizontal-nav-tab.tsx:76-92 | extension `k` is added if and only if no page and no extension registered before it has its id; the added ones stand in the order of registration and show their extension field by field |
| TabOrder.HookKeepsOrder | packages/odf/utils/horizontal-nav-tab.tsx:73-98 | of two new extensions that go before the same page, or before none, the one registered first stands first |
| S3Profiles.ProfileList.FindIndex | packages/mco/utils/tps-payload-creator.ts:152-154 | the first profile of the name, or -1 |
| S3Profiles.ProfileList.Update | packages/mco/utils/tps-payload-creator.ts:156-170 | the splice, push or field assignment in place, and whether a write is due |
| S3Profiles.PlanUpdate | packages/mco/utils/tps-payload-creator.ts:138-183 | what an attempt does after its read: throws without the key, returns without a write, or writes with the version it read and everything else kept |
| S3Profiles.AppliedKeepsOthers | packages/mco/utils/tps-payload-creator.ts:156-170 | profiles of every other name are neither lost nor changed nor reordered, duplicates included |
| S3Profiles.AppliedKeepsUnique | packages/mco/utils/tps-payload-creator.ts:156-170 | unique names stay unique |
| S3Profiles.AppliedLookup | packages/mco/utils/tps-payload-creator.ts:105-108 | on unique names a request acts as on a dictionary: removes, inserts, or merges the given fields into the stored ones |
| S3Profiles.UpsertFields | packages/mco/utils/tps-payload-creator.ts:105-108 | after an upsert each field the request carries has its value, every other stored field stays, and there is no further one |
| S3Profiles.AppliedPlaces | packages/mco/utils/tps-payload-creator.ts:152-170 | index by index: an upsert changes the first profile of the name or appends one, a remove takes the first one out |
| S3Profiles.WritesIff | packages/mco/utils/tps-payload-creator.ts:156-170 | a write is due unless a remove finds no profile of the name or an upsert finds exactly the given one |
| S3Profiles.PlanIs | packages/mco/utils/tps-payload-creator.ts:138-183 | throws if and only if the key is missing; puts if and only if a write is due, at the version read and with everything but the list kept |
| S3Profiles.NoWriteNoChange | packages/mco/utils/tps-payload-creator.ts:159-170 | where no write is sent, applying the request would not have changed the list |
| S3Profiles.RepeatKeepsList | packages/mco/utils/tps-payload-creator.ts:127-184 | repeating a request leaves the list as it is, for a remove if and only if the name was there at most once |
| S3Profiles.RepeatedUpsertWritesIff | packages/mco/utils/tps-payload-creator.ts:100-108 | repeating an upsert writes again if and only if the stored profile had a field the given one lacks, because assigning keeps that field |
| S3Profiles.RepeatedUpsertCanWrite | packages/mco/utils/tps-payload-creator.ts:100-108 | a concrete stored profile whose repeated upsert writes again |
| S3Profiles.RepeatedRemoveIsQuiet | packages/mco/utils/tps-payload-creator.ts:156-161 | a repeated remove does not write if and only if the name was there at most once |
| ConfigMapProtocol.AfterConsistent | packages/mco/utils/tps-payload-creator.ts:127-184 | every event of every client keeps the invariant that ties the store to the log and each pending write to its base |
| ConfigMapProtocol.RunsAreSerial | packages/mco/utils/tps-payload-creator.ts:116-184 | in every interleaving, with failures and foreign writes, the stored document is the log replayed in commit order; a successful call is in it exactly once, a failed or pending one never |
| ConfigMapProfiles.EffectIsApplied | packages/mco/utils/tps-payload-creator.ts:172-178 | an effect changes the profile list only: other keys of the document and of the ConfigMap stay |
| ConfigMapProfiles.ReplayByName | packages/mco/utils/tps-payload-creator.ts:152-178 | serial requests keep names unique and act on each name as its own requests alone would |
| ConfigMapProfiles.ReplayKeepsUnmentioned | packages/mco/utils/tps-payload-creator.ts:152-178 | profiles that no request names survive any run, unchanged and in order |
| ConfigMapProfiles.RunsTreatNamesSeparately | packages/mco/utils/tps-payload-creator.ts:116-184 | for whole interleaved runs: names stay unique and each name fares as its own requests alone would have it |
| ConfigMapProfiles.RunsKeepUnmentioned | packages/mco/utils/tps-payload-creator.ts:116-184 | for whole interleaved runs: the profiles that no committed request names survive together, unchanged and in order |
| ConfigMapProfiles.FieldIsLastWritten | packages/mco/utils/tps-payload-creator.ts:105-108 | after a serial log a field under a name has the value of the last upsert of that name that carries it, or none if a remove came later |
| ConfigMapProfiles.NameIsThereIff | packages/mco/utils/tps-payload-creator.ts:152-170 | a profile is there after a log if and only if the last request of its name was an upsert |
| ConfigMapProfiles.RunsKeepLastWritten | packages/mco/utils/tps-payload-creator.ts:116-184 | the law of fields for whole interleaved runs, untouched fields included |
| ConfigMapProfiles.MissingKeyFailsAll | packages/mco/utils/tps-payload-creator.ts:138-150 | without the key nothing is ever written or committed, and each event of a client is one more failed attempt |
| RetryBound.FewClientsAllSucceed | packages/mco/utils/tps-payload-creator.ts:121-124 | with three retries, up to four concurrent callers never give up, in every faultless interleaving |
| RetryBound.FewClientsAllDone | packages/mco/utils/tps-payload-creator.ts:121-124 | when nobody has anything left to do, all of up to four callers have succeeded, each committed exactly once |
| RetryBound.RunsEnd | packages/mco/utils/tps-payload-creator.ts:116-184 | every call settles: with any failures and any foreign writes, a run has at most eight events for each client |
| RetryBound.ManyClientsMayFail | packages/mco/utils/tps-payload-creator.ts:121-124 | for any number of callers above four some faultless interleaving makes one give up |
| RetryBound.SureToSucceedIff | packages/mco/utils/tps-payload-creator.ts:121-124 | so `n` concurrent callers are sure not to fail if and only if `n` is at most four |
| Retry.RetryWithBackoff | packages/odf/utils/retry.ts:18-64 | the loop's result, call times, sleeps and final clock are those of `Retried` |
| Retry.RetriedResult | packages/odf/utils/retry.ts:35-63 | at most maxRetries + 1 calls; the first success or the last error; a rejection with `undefined` exactly if no call is made; without a timeout a failure means all calls were made |
| Retry.SleepsWithoutTimeout | packages/odf/utils/retry.ts:46-58 | between two calls it sleeps the capped delay of the earlier attempt, once |
| Retry.ExhaustedSleep | packages/odf/utils/retry.ts:46-58 | total sleep on exhaustion: the sum of the capped delays, at most maxRetries caps and at most the geometric series |
| Retry.ConfigMapRetrySleeps | packages/mco/utils/tps-payload-creator.ts:121-124 | for the ConfigMap update: four calls, sleeps of 500, 1000 and 2000 ms |
| Retry.LoopMeetsDeadline | packages/odf/utils/retry.ts:36-55 | with a timeout no call starts at or past the deadline, every sleep ends by then, and each call starts when the sleep before it ends |
| Retry.DelayIs | packages/odf/utils/retry.ts:46-49 | the delay after attempt `k` is the initial one multiplied `k` times by the factor, cut to the cap |
| Retry.RetriedTimes | packages/odf/utils/retry.ts:35-63 | every start, every sleep, cut to the time left if there is a timeout, and the end; without a success or all attempts it ends at or past the deadline |
| Retry.DefaultSleeps | packages/odf/utils/retry.ts:18-30 | with the defaults six calls and sleeps of 1, 2, 4, 8 and 16 s |
| JsonPatch.ParsePlainPointer | packages/odf/utils/mcg.ts:55 | a pointer spelled from tokens parses to these tokens (RFC 6901) |
| JsonPatch.ParseEscapedPointer | packages/odf/utils/mcg.ts:55 | any tokens survive being escaped, spelled as a pointer and parsed (sections 3 and 4 of RFC 6901) |
| JsonPatch.AddToArray | packages/odf/utils/mcg.ts:53-62 | `add` to an array inserts at the index or appends, and fails beyond the end or for anything but an index (section 4.1 of RFC 6902) |
| JsonPatch.AddDeeper | packages/odf/utils/mcg.ts:53-62 | below a member or element `add` changes that one only, or fails as it does there |
| JsonPatch.AddBelow | packages/odf/utils/mcg.ts:53-62 | `add` below an existing location changes that location and nothing else (section 4.1 of RFC 6902) |
| ObcAttach.GetAttachOBCPatch | packages/odf/utils/mcg.ts:35-78 | the patches for all containers, in order, none without containers |
| ObcAttach.ContainerPatched | packages/odf/utils/mcg.ts:52-74 | a container's two patches apply and give it its old list followed by the configMapRef and the secretRef |
| ObcAttach.AttachApplies | packages/odf/utils/mcg.ts:35-78 | for every deployment all patches apply in order, every container gets both references behind its old list, and nothing else changes |
| ObcAttach.AttachByLocations | packages/odf/utils/mcg.ts:35-78 | location by location: each container keeps its members but `envFrom`, which is its old list followed by the two references spelled out, and all locations outside the containers stay |
| StoragePoolPatches.EnsureApplies | packages/ocs/storage-pool/CreateStoragePool.tsx:131-180 | for every cluster without the reference, the patch applies if and only if there is a spec; it sets the reference and keeps every sibling on every level |
| StoragePoolPatches.EnsureIsIdempotent | packages/ocs/storage-pool/CreateStoragePool.tsx:136-138 | a non-empty reference is never overwritten; after a success a second call emits no patch |
| StoragePoolPatches.EnsureSkipsIff | packages/ocs/storage-pool/CreateStoragePool.tsx:136-138 | no patch is emitted if and only if there is a non-empty reference |
| StoragePoolPatches.EnsureByLocations | packages/ocs/storage-pool/CreateStoragePool.tsx:131-180 | location by location: the reference holds the metadata pool name, and every location that parts from its path stays |
| StoragePoolPatches.FsPoolPatchApplies | packages/ocs/storage-pool/CreateStoragePool.tsx:49-89 | the data-pool patch applies if and only if the cluster has an explicit cephFilesystems object; then it appends the pool and changes nothing else |
| StoragePoolPatches.DataPoolFields | packages/ocs/storage-pool/CreateStoragePool.tsx:49-69 | name, compression, and chunks or replica size of the pool for each state of the form |
| StoragePoolPatches.FsPoolByLocations | packages/ocs/storage-pool/CreateStoragePool.tsx:70-89 | location by location: the pool stands behind the old ones, and every location that parts from the list stays |
| Grouping.Buckets.Push | packages/mco/hooks/useActiveDROperations.ts:172-175 | a push creates the list of a new key and appends to that of an old one |
| Grouping.IndexIsNaive | packages/mco/hooks/subscription.ts:59-105 | pushing item by item yields, per key in order of first occurrence, exactly the items a scan would find |
| Grouping.MatchingPicks | packages/mco/hooks/subscription.ts:59-105 | a group holds the items at the positions of its key, in the order of the list |
| Grouping.DistinctOrder | packages/mco/hooks/subscription.ts:59-105 | keys stand in the order of their first positions |
| Grouping.GroupsPartition | packages/mco/hooks/subscription.ts:59-105 | the groups together hold every item exactly as often as the list |
| SubscriptionGroups.FindDRResource | packages/mco/utils/disaster-recovery.tsx:334-361 | the last resource with a matching DRPC wins, with its first match |
| SubscriptionGroups.DrInfoIs | packages/mco/utils/disaster-recovery.tsx:334-361 | by indices and fields: the info is that of the last resource that lists a DRPC whose reference has the kind and name of the placement, in its namespace, with the first such DRPC; none otherwise |
| SubscriptionGroups.DecisionIs | packages/mco/utils/disaster-recovery.tsx:596-609 | the first decision that carries the name of the placement under the label of its kind, in its namespace |
| SubscriptionGroups.MatchesIff | packages/mco/utils/disaster-recovery.tsx:110-150 | a subscription matches if and only if the application has expressions and each holds of its labels, operator by operator |
| SubscriptionGroups.PlacementIndexIsScan | packages/mco/hooks/subscription.ts:107-119 | the nested placement index finds the last placement of the name in the namespace |
| SubscriptionGroups.SubscriptionIndexIsScan | packages/mco/hooks/subscription.ts:76-91 | the subscription index lists the namespace's placement subscriptions in order |
| SubscriptionGroups.ApplicationIndexIsGrouping | packages/mco/hooks/subscription.ts:59-74 | the application index groups the qualifying applications |
| SubscriptionGroups.DecisionIndexIsScan | packages/mco/utils/disaster-recovery.tsx:596-609 | searching the namespace's decisions finds what searching all finds |
| SubscriptionGroups.GroupMap.Add | packages/mco/hooks/subscription.ts:147-178 | the object of groups after one more subscription: a new group with its decision and DR info, or one more member |
| SubscriptionGroups.GenerateSubscriptionGroupInfo | packages/mco/hooks/subscription.ts:121-183 | the loop returns one group per distinct placement id in order of first occurrence, or throws |
| SubscriptionGroups.IndexedIsNaive | packages/mco/hooks/subscription.ts:253-274 | for every application the indexed grouping equals the one that scans all lists |
| SubscriptionGroups.SubscriptionResources | packages/mco/hooks/subscription.ts:244-284 | the hook's result is the naive one, namespace by namespace, an exception included |
| SubscriptionGroups.ThrowsIff | packages/mco/hooks/subscription.ts:137-155 | it throws if and only if some qualifying application matches a subscription whose placement does not exist in its namespace |
| SubscriptionGroups.ResolvedIff | packages/mco/hooks/subscription.ts:137-146 | a subscription has a placement if and only if one of its kind and name is in its namespace |
| SubscriptionGroups.GroupingThrows | packages/mco/hooks/subscription.ts:137-155 | a concrete subscription without placement that makes the hook throw |
| SubscriptionGroups.AppsAppearOnce | packages/mco/hooks/subscription.ts:262-280 | each qualifying application appears exactly as often as it is listed |
| SubscriptionGroups.UniqueIdInjective | packages/mco/utils/disaster-recovery.tsx:152-153 | the `%`-joined id identifies name, namespace and kind |
| SubscriptionGroups.GroupsPartitionSubscriptions | packages/mco/hooks/subscription.ts:130-182 | one group per placement, each with exactly that placement's subscriptions in order, its decision and DR info; together all matching subscriptions |
| SubscriptionGroups.AppSubsPicks | packages/mco/hooks/subscription.ts:129-134 | the subscriptions of an application, by fields and in their order |
| SubscriptionGroups.GroupHolds | packages/mco/hooks/subscription.ts:121-183 | by fields: the placement of a group is a watched one of the namespace, and the group holds exactly the subscriptions that reference it by kind and name, in order |
| SubscriptionGroups.GroupCarries | packages/mco/hooks/subscription.ts:152-176 | by fields: a group carries the first decision of this very placement, and the first DRPC that references it in the last resource that lists one |
| SubscriptionGroups.GroupsInOrderOfFirst | packages/mco/hooks/subscription.ts:147-178 | groups stand in the order of their first subscriptions |
| SubscriptionGroups.AppsKeepOrder | packages/mco/hooks/subscription.ts:253-274 | applications of one namespace stand as they are listed, namespaces by their first application |
| ProtectedApps.PlacementKeyInjective | packages/mco/hooks/protected-applications.ts:18-19 | the hyphen-joined key is injective for names without capitals and capitalised, hyphen-free kinds |
| ProtectedApps.GetProtectedPlacementMap | packages/mco/hooks/protected-applications.ts:28-51 | the last DRPC per key, and the number of discovered DRPCs per policy |
| ProtectedApps.CountDRPolicyToAppSets | packages/mco/hooks/protected-applications.ts:53-78 | the number of ApplicationSets whose placement key maps to a DRPC of the policy |
| ProtectedApps.MapSubscriptionsToPlacements | packages/mco/hooks/protected-applications.ts:80-107 | for each application key exactly the placement keys of its subscriptions |
| ProtectedApps.CountDRPolicyToSubscriptions | packages/mco/hooks/protected-applications.ts:110-132 | each application key counts once for each policy that guards one of its placements, in whatever order they are visited |
| ProtectedApps.AggregateDRPolicyCounts | packages/mco/hooks/protected-applications.ts:135-156 | the three counts added up, a property only for policies that were counted |
| ProtectedApps.UseProtectedApplicationsWatch | packages/mco/hooks/protected-applications.ts:158-225 | the counts equal a scan of the lists that have loaded without error, and the flag says whether these are all three |
| ProtectedApps.KeyMeansPlacement | packages/mco/hooks/protected-applications.ts:36-48 | with one DRPC per placement, a key is protected by a policy if and only if the placement is |
| ProtectedApps.CountIsByPlacement | packages/mco/hooks/protected-applications.ts:18-156 | with one DRPC per placement, a policy's count is its discovered DRPCs, plus the ApplicationSets it protects, plus the distinct application keys with a subscription placement it protects |
| ProtectedApps.CountByFields | packages/mco/hooks/protected-applications.ts:18-156 | the count in terms of fields: DRPCs in the namespace of discovered applications, ApplicationSets and subscriptions whose placement a DRPC of the policy references by kind, name and namespace |
| ProtectedApps.AppKeysCollide | packages/mco/hooks/protected-applications.ts:89 | two different applications can share a key |
| ProtectedApps.KeysMeetIff | packages/mco/hooks/protected-applications.ts:89 | two different applications share a key if and only if the label of one goes on with what the namespace of the other begins with, or one is unlabelled and the other is labelled `undefined` |
| ProtectedApps.SubscriptionAppsExactIff | packages/mco/hooks/protected-applications.ts:86-102 | the subscription part counts applications, optional label and namespace, if and only if no two of them collide in that way |
| ProtectedApps.AppsByFields | packages/mco/hooks/protected-applications.ts:86-102 | the applications that are counted, by label and namespace of their subscriptions |
| ProtectedApps.ExactWithoutHyphens | packages/mco/hooks/protected-applications.ts:86-102 | it is exact if no label, or no namespace, has a hyphen and no label is `undefined` |
| ProtectedApps.UnlabelledCountPerNamespace | packages/mco/hooks/protected-applications.ts:86-102 | unlabelled subscriptions count once per namespace, whatever application they belong to |
| ClusterPairs.PairKeySymmetric | packages/mco/hooks/useDRPoliciesByClusterPair.ts:25-31 | the key does not depend on the order of the clusters |
| ClusterPairs.PairKeyIs | packages/mco/hooks/useDRPoliciesByClusterPair.ts:25-31 | the key is the two names in order, joined by two colons |
| ClusterPairs.AtMostIff | packages/mco/hooks/useDRPoliciesByClusterPair.ts:25-31 | the order is by first differing character, a prefix first |
| ClusterPairs.PairKeyInjective | packages/mco/hooks/useDRPoliciesByClusterPair.ts:25-31 | for colon-free names, equal keys if and only if the same unordered pair |
| ClusterPairs.ColonsCollide | packages/mco/hooks/useDRPoliciesByClusterPair.ts:25-31 | the key alone needs the colon-free names that clusters have: with colons different pairs would share one |
| ClusterPairs.PairComesBack | packages/mco/hooks/useDRPoliciesByClusterPair.ts:93-98 | splitting the key gives the sorted pair back |
| ClusterPairs.Direct | packages/mco/hooks/useActiveDROperations.ts:120-153 | source and target by action, both undefined unless action and both clusters are set |
| ClusterPairs.OperationIs | packages/mco/hooks/useActiveDROperations.ts:120-153 | a failover runs from the preferred to the failover cluster, a relocation back; otherwise neither end is known |
| ClusterPairs.OperationsAre | packages/mco/hooks/useActiveDROperations.ts:103-113 | the operations are those of the DRPCs with an unfinished progression or a transitional phase, in their order |
| ClusterPairs.CollectOperations | packages/mco/hooks/useActiveDROperations.ts:103-177 | the operations of all active DRPCs, bucketed by key, in order |
| ClusterPairs.OperationsPartition | packages/mco/hooks/useActiveDROperations.ts:103-177 | each active DRPC's operation is in the bucket of its key and no other; nothing is lost or doubled |
| ClusterPairs.SameBucketIff | packages/mco/hooks/useActiveDROperations.ts:124-155 | a failover and a relocation share a bucket if and only if they run between the same two clusters |
| ClusterPairs.UndirectedShareABucket | packages/mco/hooks/useActiveDROperations.ts:120-155 | an active operation is in its pair's bucket if and only if its direction is known; all others share one bucket |
| ClusterPairs.CollectPolicies | packages/mco/hooks/useDRPoliciesByClusterPair.ts:46-83 | the policies over exactly two clusters, bucketed by pair |
| ClusterPairs.PairedPicks | packages/mco/hooks/useDRPoliciesByClusterPair.ts:50-58 | the policies listed are those over exactly two clusters, in their order |
| ClusterPairs.PolicyFindsItsOperations | packages/mco/hooks/useDRPoliciesByClusterPair.ts:50-79 | the operations found under a policy's key are exactly those between its two clusters |
| SyncInterval.ParseWritten | packages/mco/utils/disaster-recovery.tsx:410-421 | decimal(n) followed by m, h or d parses to that number and unit |
| SyncInterval.HealthThresholds | packages/mco/utils/disaster-recovery.tsx:439-455 | for positive intervals: critical from three intervals on, warning strictly between two and three, healthy up to two |
| SyncInterval.WrittenHealth | packages/mco/utils/disaster-recovery.tsx:428-455 | the thresholds for `n` minutes, hours or days, in seconds |
| SyncInterval.UnitsAgree | packages/mco/utils/disaster-recovery.tsx:428-455 | equal durations in different units give the same health |
| SyncInterval.ZeroHoursIsCritical | packages/mco/utils/disaster-recovery.tsx:432-448 | zero hours or days are not treated as zero: any positive elapsed time is critical |
| SyncInterval.HealthWorsens | packages/mco/utils/disaster-recovery.tsx:439-455 | health never improves as time passes, for every interval string |
| SyncInterval.ReplicationHealthWorsens | packages/mco/utils/disaster-recovery.tsx:268-285 | the same for replication health with its exceptions |
| SyncInterval.ReplicationHealthIs | packages/mco/utils/disaster-recovery.tsx:268-285 | healthy for a synchronous policy, else by the time since the last sync, a missing one being as old as 1697788182 s |
| DrStatus.WhenShown | packages/mco/utils/dr-status.ts:198-258 | for each status of a phase exactly when it is shown, by the fields |
| DrStatus.WhenProtecting | packages/mco/utils/dr-status.ts:262-286 | exactly when Protecting and ProtectionError are shown, by the fields |
| DrStatus.WhenHealthShown | packages/mco/utils/dr-status.ts:286-306 | elsewhere Critical if and only if one of the two healths is critical, else Warning if one is a warning, else Healthy if there is one, else Unknown |
| DrStatus.WindowCloses | packages/mco/utils/dr-status.ts:79-141 | once the Protecting window has closed it stays closed |
| DrStatus.StatusAdvances | packages/mco/hooks/useProtectedAppsByCluster.ts:87-122 | for a fixed DRPC and policy, the status never moves backwards in Protecting < Healthy < Warning < Critical, and any other status stays constant |
| DrStatus.RunAdvances | packages/mco/hooks/useProtectedAppsByCluster.ts:87-122 | over every run of clock readings |
| DrStatus.UnsyncedDeployment | packages/mco/utils/dr-status.ts:129-135 | a deployment that never syncs is Protecting for exactly three intervals and then Critical, with no status between |
| DrStatus.SyncedApplication | packages/mco/utils/dr-status.ts:286-299 | a synced application shows its health by exact thresholds on the last sync |
| DrStatus.HealthsByThresholds | packages/mco/utils/dr-status.ts:286-306 | the status by exact thresholds on the last sync and on the last capture of the kube objects |
| StatefulRegex.ConsecutivePattern.Test | packages/odf/utils/mcg.ts:241 | `test` of a global pattern: first match at or after lastIndex, which moves behind it or to 0 |
| StatefulRegex.ConsecutivePattern.ValidateBucketClassName | packages/odf/utils/mcg.ts:243-247 | the validation, with its effect on lastIndex |
| StatefulRegex.NameCheckIsPattern | packages/odf/utils/mcg.ts:240 | a direct check of first, last and inner characters accepts exactly what the anchored pattern matches |
| StatefulRegex.WellFormedIff | packages/odf/utils/mcg.ts:240-247 | a well-formed name, character by character |
| StatefulRegex.WellFormedAccepted | packages/odf/utils/mcg.ts:243-247 | a well-formed name is accepted after every history |
| StatefulRegex.AcceptedIff | packages/odf/utils/mcg.ts:243-247 | after a history, exactly the names without a doubled character at or after lastIndex are accepted |
| StatefulRegex.RejectedAfterAcceptance | packages/odf/utils/mcg.ts:241-247 | right after an acceptance a name is accepted if and only if it is well-formed |
| StatefulRegex.NeverTwoMalformed | packages/odf/utils/mcg.ts:241-247 | no history accepts two malformed names in a row |
| StatefulRegex.MalformedCanPass | packages/odf/utils/mcg.ts:241-247 | a concrete malformed name that is rejected and then accepted |
| StatefulRegex.GetCephHealthChecks | packages/ocs/utils/ceph-health.ts:45-67 | the loop with the pattern it shares between keys |
| StatefulRegex.CapitalsMatch | packages/ocs/utils/ceph-health.ts:48 | where a capital stands the match is all capitals and then all underscores from there |
| StatefulRegex.ErrorMatch | packages/ocs/utils/ceph-health.ts:48 | where none stands it is the word `error` |
| StatefulRegex.FirstMatch | packages/ocs/utils/ceph-health.ts:48-52 | the match found is the first that begins at or after `lastIndex` |
| StatefulRegex.ReportedPicks | packages/ocs/utils/ceph-health.ts:48-65 | the result holds the reported keys in their order |
| StatefulRegex.ReportsSubsequence | packages/ocs/utils/ceph-health.ts:48-65 | the reported keys are a subsequence of the matching ones |
| StatefulRegex.NeverSkipsTwo | packages/ocs/utils/ceph-health.ts:48-65 | the matching key after a skipped one is reported, and so is the first |
| StatefulRegex.SkippedIff | packages/ocs/utils/ceph-health.ts:48-52 | a matching key is dropped if and only if the key before it was reported and no match begins in this one at or after the end of that match |
| StatefulRegex.AllReportedIff | packages/ocs/utils/ceph-health.ts:48-65 | all matching keys are reported, in order, if and only if none is in that position |
| StatefulRegex.CodeReportedIff | packages/ocs/utils/ceph-health.ts:48-52 | a health code of capitals and underscores is reported if and only if it is longer than `lastIndex` |
| StatefulRegex.LongerIsReported | packages/ocs/utils/ceph-health.ts:48-52 | so a code longer than the key before it is never dropped |
| StatefulRegex.QualifyingKeyCanBeSkipped | packages/ocs/utils/ceph-health.ts:48-52 | of three concrete codes the third is dropped |
| ResourceProfiles.RequirementsMap.GetResourceProfileRequirements | packages/odf/utils/ocs.ts:138-171 | the requirements after a history of calls, and the table left behind |
| ResourceProfiles.RequirementsMap.IsResourceProfileAllowed | packages/odf/utils/ocs.ts:182-198 | whether nodes meet them |
| ResourceProfiles.OsdCpuDependsOn | packages/odf/utils/ocs.ts:146-150 | the table's entry depends only on whether an s390x call for the profile was made |
| ResourceProfiles.HistoryDependence | packages/odf/utils/ocs.ts:138-171 | s390x requirements never depend on the history; others only on that one fact, and only downwards |
| ResourceProfiles.MemoryIs | packages/odf/utils/ocs.ts:152-169 | the memory of every call in whole numbers |
| ResourceProfiles.S390xCpuIs | packages/odf/utils/ocs.ts:138-171 | the CPUs of every s390x call, after every history, in whole numbers |
| ResourceProfiles.OtherCpuIs | packages/odf/utils/ocs.ts:138-171 | the CPUs of every other call, by whether its profile was asked for on s390x before |
| ResourceProfiles.S390xOrdered | packages/odf/constants/common.ts:75-88 | on s390x, after every history, Performance allowed implies Balanced allowed implies Lean allowed |
| ResourceProfiles.OtherOrderedIff | packages/odf/constants/common.ts:41-67 | elsewhere Performance implies Balanced always, but Balanced implies Lean if and only if no s390x call was made for Balanced without one for Lean |
| ResourceProfiles.FreshOrdered | packages/odf/constants/common.ts:41-67 | on the fresh table the order holds for every number of OSDs |
| Labels.ConvertLabelToExpression | packages/mco/utils/common.ts:40-61 | one In expression per key, in order of first occurrence, with its values in order |
| Labels.ConvertExpressionToLabel | packages/mco/utils/common.ts:63-71 | one label per value, in order, or an exception if an expression has no values |
| Labels.KeyAndValue | packages/mco/utils/common.ts:40-50 | key and value of a label by its first and second `=` |
| Labels.ToLabelsIs | packages/mco/utils/common.ts:63-71 | the labels of the expressions stand one behind the other; it throws if and only if an expression has no values |
| Labels.ExpressionsSurvive | packages/mco/utils/common.ts:40-71 | expressions with distinct keys, operator In, values, and no `=` come back exactly |
| Labels.LabelsComeBackGrouped | packages/mco/utils/common.ts:40-71 | labels come back as a stable grouping by key |
| Labels.LabelsSurviveIff | packages/mco/utils/common.ts:40-71 | the same multiset of labels comes back if and only if each has exactly one `=` |
| PolicyCleanup.GetUnpairedDRClusters | packages/mco/components/drpolicy-list-page/drpolicy-list-page.tsx:201-213 | the DRClusters in no MirrorPeer that manages S3, in order |
| PolicyCleanup.DrClusterToPoliciesMap | packages/mco/components/drpolicy-list-page/drpolicy-list-page.tsx:260-277 | the unpaired clusters some policy lists, with these policies |
| PolicyCleanup.Select | packages/mco/components/drpolicy-list-page/drpolicy-list-page.tsx:74-80 | the DRCluster to clean up, if exactly one policy is associated |
| PolicyCleanup.HubClient.CleanCluster | packages/mco/components/drpolicy-list-page/drpolicy-list-page.tsx:80-119 | the requests for one cluster, with the effects that remain after a failure at any point |
| PolicyCleanup.HubClient.CleanupDRCluster | packages/mco/components/drpolicy-list-page/drpolicy-list-page.tsx:71-122 | the loop, which stops at the first failure |
| PolicyCleanup.SelectedIff | packages/mco/components/drpolicy-list-page/drpolicy-list-page.tsx:74-80 | a listed cluster is selected if and only if it exists, is unpaired, and no other policy of the snapshot lists it |
| PolicyCleanup.RunsAreSafe | packages/mco/components/drpolicy-list-page/drpolicy-list-page.tsx:71-122 | no run of deletions on stale snapshots, while policies only shrink, deletes a DRCluster that another remaining policy lists or a MirrorPeer of its snapshot manages |
| PolicyCleanup.CleanupIsSafe | packages/mco/components/drpolicy-list-page/drpolicy-list-page.tsx:71-122 | the same for the cleanup itself, whatever requests fail: each DRCluster it removes is such a deletion |
| PolicyCleanup.SafeIffNoneCreated | packages/mco/components/drpolicy-list-page/drpolicy-list-page.tsx:260-277 | when policies are also created, a deletion is safe if and only if none created since the snapshot lists the cluster |
| PolicyCleanup.CreatedPolicyLosesCluster | packages/mco/components/drpolicy-list-page/drpolicy-list-page.tsx:260-277 | a concrete policy created since the snapshot that loses its DRCluster |
| PolicyCleanup.CleanupCompletesIff | packages/mco/components/drpolicy-list-page/drpolicy-list-page.tsx:71-122 | when all requests succeed, the cleanup completes, and removes exactly the selected DRClusters and their profiles, if and only if each has a profile of its own |
| PolicyCleanup.CleanupStops | packages/mco/components/drpolicy-list-page/drpolicy-list-page.tsx:71-122 | for every network: some selected DRClusters are cleaned up completely, four requests each, and then the cleanup is done or fails at one request for the next, with what that leaves spelled out |
| PolicyCleanup.CleanupDoneIff | packages/mco/components/drpolicy-list-page/drpolicy-list-page.tsx:71-122 | for every network it completes if and only if every request it sent succeeded and each selected DRCluster has a profile of its own |
| PolicyCleanup.FailureIsLast | packages/mco/components/drpolicy-list-page/drpolicy-list-page.tsx:80-119 | a failed request is the last one sent, and the cleanup then fails |
| PolicyCleanup.RemovedWithoutProfile | packages/mco/components/drpolicy-list-page/drpolicy-list-page.tsx:80-119 | a DRCluster is gone only if its profile is, and at most one selected DRCluster is left without its profile |
| PolicyCleanup.OthersKeepProfilesIff | packages/mco/components/drpolicy-list-page/drpolicy-list-page.tsx:80-119 | a completed cleanup leaves other DRClusters their S3 profiles if and only if none of them shares one with a DRCluster it removes |
| PolicyCleanup.KeepsOtherProfiles | packages/mco/components/drpolicy-list-page/drpolicy-list-page.tsx:80-119 | whatever requests fail, a profile that no selected DRCluster uses stays as it is |
| PolicyCleanup.SharedProfileIsLost | packages/mco/components/drpolicy-list-page/drpolicy-list-page.tsx:80-119 | a concrete cleanup that takes the profile of a DRCluster another remaining policy lists |
| PolicyCleanup.SharedProfileStopsHalfWay | packages/mco/components/drpolicy-list-page/drpolicy-list-page.tsx:80-119 | a concrete policy over two DRClusters of one profile, whose cleanup removes the first and stops |
| PolicyCleanup.LastPolicyRemoves | packages/mco/components/drpolicy-list-page/drpolicy-list-page.tsx:71-122 | on fresh data the last policy to go removes every unpaired DRCluster it lists and no other |
| PolicyCleanup.RunRemovesIff | packages/mco/components/drpolicy-list-page/drpolicy-list-page.tsx:71-122 | a run of completed deletions, each from a page however stale, removes a DRCluster if and only if one was made on a page where its policy was the last to list it, unpaired |
| PolicyCleanup.StalePagesLeaveCluster | packages/mco/components/drpolicy-list-page/drpolicy-list-page.tsx:71-122 | the only two policies over a DRCluster, both deleted from a page that shows both, leave it behind |
| Arbiter.CountNodesPerZone | packages/odf/utils/ocs.ts:85-90 | the number of nodes per zone key |
| Arbiter.SelectedZones | packages/odf/utils/ocs.ts:65-83 | the zones of nodes without taints or with the storage taint |
| Arbiter.IsArbiterSC | packages/odf/utils/ocs.ts:380-392 | the three conditions of the check |
| Arbiter.HostIff | packages/odf/utils/ocs.ts:42-55 | the hosts that available volumes of the class name in an expression on host names |
| Arbiter.SelectedPicks | packages/odf/utils/ocs.ts:42-55 | the selected nodes, by name or host name, in their order |
| Arbiter.CheckIff | packages/odf/utils/ocs.ts:380-392 | the three conditions in terms of nodes and their zones |
| Arbiter.ArbiterStretchedIff | packages/odf/utils/ocs.ts:380-392 | a class that passes has two selected nodes in each counted zone and a node in a third, if and only if not exactly one selected node is in a counted zone labelled `undefined` |
| Arbiter.ArbiterHasFiveNodes | packages/odf/constants/tooltips.tsx:16-19 | a class that passes has at least five nodes in any case |
| Arbiter.ArbiterMeansStretched | packages/odf/constants/tooltips.tsx:16-19 | unless one selected node is alone in a zone labelled `undefined`: two zones with two selected nodes each, a node in a third zone, and five nodes |
| Arbiter.ArbiterNeedNotBeStretched | packages/odf/utils/ocs.ts:85-90 | a concrete class that passes because a node without a zone is counted in the zone labelled `undefined` |

## Left out

- React components, hook memoisation, translations, tables and wizards: user interface.
- Ambiguous outcomes of a write (applied, response lost): a failed write has no effect here.
- YAML loading and dumping, which are taken to undo each other: the ConfigMap holds the parsed document.
- Deletion and re-creation of the ConfigMap while attempts are under way: versions only grow.
- `S3Profiles.Profile`: profile fields are strings or one nested level of strings, as the type in packages/mco/types/ramen.ts has them; explicit `undefined` fields are not distinguished from missing ones.
- `Labels.ConvertLabelToExpression`: keys that a plain object inherits, or enumerates first because they are integers, are excluded by `PlainObjects.Ordinary`.
- `SubscriptionGroups.SubscriptionResources`: application namespaces are `PlainObjects.Ordinary`, and other namespaces and the names of referenced placements are not `PlainObjects.Inherited` (such as `constructor`, which any plain object would find); loading flags of the watches and a single application in place of a list are not modelled.
- `SubscriptionGroups.PlacementIndexIsScan`: names that a plain object inherits, likewise.
- `ProtectedApps.UseProtectedApplicationsWatch`: policies with such names. Composite keys contain `%`, `:` or `-` and are never inherited or integers.
- `TabOrder.SortFromPermutesIff`: where a tab names in `before` what stands right of it, the condition is one on the iterations, since tabs then move past ones not yet visited; for all other tabs `TabOrder.LosesNoneIff` has the one on names.
- `ObcAttach.AttachApplies`: containers are objects whose `envFrom` is a list or unset, as the API server guarantees; concurrent changes of the deployment are not modelled.
- `StoragePoolPatches.EnsureApplies`: the fields on the path have the types of the StorageCluster resource where they are set.
- `SubscriptionGroups.GroupsPartitionSubscriptions`: requires that each placement list holds its own kind and names have no `%`, which the API server guarantees; the equality with the naive form needs neither.
- `ProtectedApps.GetProtectedPlacementMap`: every DRPC has a placement reference, because the code throws without one.
- `ProtectedApps.CountIsByPlacement`: the distinct application keys, not applications; the exact difference is `ProtectedApps.SubscriptionAppsExactIff`.
- `ClusterPairs.CollectOperations`: the operation's display fields taken from the protected application view; only the DRPC and the two clusters are kept.
- `Retry.RetryWithBackoff`: sleeps last exactly as long as asked, and time is real rather than in whole milliseconds.
- `SyncInterval.HealthThresholds`: exact reals instead of floating-point quotients, and unbounded integers for the digits of an interval.
- `DrStatus.StatusAdvances`: times are taken as parsed; an empty time string is a missing one.
- `StatefulRegex.GetCephHealthChecks`: the messages and links attached to a reported key.
- `ResourceProfiles.RequirementsMap`: profiles other than the three of the table.
- `PolicyCleanup.HubClient.CleanupDRCluster`: the deletion of the policy itself, which the dialog requests only if the cleanup is done.
- `PolicyCleanup.HubClient.CleanCluster`: the name of the secret is a hash and the secret itself is not part of the state; only the success of its deletion matters. Other programs do not change the hub during one cleanup; `PolicyCleanup.RunsAreSafe` covers interleaved cleanups.
- `Arbiter.IsArbiterSC`: CPU and memory sums of the nodes.
- CIDR overlap and Submariner health, query-string builders, constant tables and display switches: they would add easy members.
- `getPoolKindObj` and the wizard payloads beside it: a choice between two literal objects.
