/**
 How many applications each DRPolicy protects (packages/mco/hooks/protected-applications.ts).
 */
module ProtectedApps {
  import opened Options
  import opened Sequences
  import opened Strings
  import opened Placements
  import opened PlainObjects

  datatype Drpc = Drpc(name: string, ns: string, ref: PlacementRef, policy: string)

  /** `placementName` is empty if the generators name none. */
  datatype AppSet = AppSet(name: string, ns: string, placementName: string)

  datatype Subscription = Subscription(name: string, ns: string, app: Option<string>, ref: Option<PlacementRef>)

  const DISCOVERED_APP_NS := "openshift-dr-ops"

  // ----- keys -----

  function PlacementKey(name: string, kind: string, ns: string): string {
    name + "-" + kind + "-" + ns
  }

  function DrpcKey(drpc: Drpc): string {
    PlacementKey(drpc.ref.name, drpc.ref.kind, drpc.ns)
  }

  function AppKey(sub: Subscription): string {
    (if sub.app.Some? then sub.app.value else "undefined") + "-" + sub.ns
  }

  /** A resource or namespace name: no capital letters. */
  predicate IsName(s: string) {
    forall k :: 0 <= k < |s| ==> !IsUpper(s[k])
  }

  /** A kind: capitalised, without hyphens. */
  predicate IsKind(s: string) {
    s != "" && IsUpper(s[0]) && '-' !in s
  }

  lemma FirstUpper(n: string, k: string, s: string)
    requires IsName(n) && IsKind(k)
    ensures var key := PlacementKey(n, k, s);
            |n| + 1 < |key| && IsUpper(key[|n| + 1]) && forall j :: 0 <= j <= |n| ==> !IsUpper(key[j])
  {
    var key := PlacementKey(n, k, s);
    assert key[|n| + 1] == k[0];
    assert forall j :: 0 <= j < |n| ==> key[j] == n[j];
    assert key[|n|] == '-';
  }

  lemma KindEnds(k: string, s: string)
    requires IsKind(k)
    ensures var tail := k + "-" + s;
            tail[|k|] == '-' && forall j :: 0 <= j < |k| ==> tail[j] != '-'
  {
    assert forall j :: 0 <= j < |k| ==> (k + "-" + s)[j] == k[j];
  }

  /** Names may contain hyphens, but the first capital letter tells where the kind begins. */
  lemma PlacementKeyInjective(n: string, k: string, s: string, n': string, k': string, s': string)
    requires IsName(n) && IsKind(k) && IsName(s) && IsName(n') && IsKind(k') && IsName(s')
    ensures PlacementKey(n, k, s) == PlacementKey(n', k', s') <==> n == n' && k == k' && s == s'
  {
    var key, key' := PlacementKey(n, k, s), PlacementKey(n', k', s');
    if key == key' {
      FirstUpper(n, k, s);
      FirstUpper(n', k', s');
      assert |n| == |n'|;
      assert n == key[..|n|] && n' == key'[..|n'|];
      var tail, tail' := k + "-" + s, k' + "-" + s';
      assert tail == key[|n| + 1..] && tail' == key'[|n'| + 1..];
      KindEnds(k, s);
      KindEnds(k', s');
      assert k == tail[..|k|] && k' == tail'[..|k'|];
      assert s == tail[|k| + 1..] && s' == tail'[|k'| + 1..];
    }
  }

  // ----- counting dictionaries -----

  type Counts = map<string, nat>

  function Count(m: Counts, policy: string): nat {
    if policy in m then m[policy] else 0
  }

  function Incremented(m: Counts, policy: string): Counts {
    m[policy := Count(m, policy) + 1]
  }

  /** Only policies that were counted have a property. */
  predicate NoZeros(m: Counts) {
    forall p :: p in m ==> m[p] > 0
  }

  // ----- DRPCs -----

  /** The DRPC that the map keeps for a key: the last one. */
  function LastByKey(drpcs: seq<Drpc>, key: string): Option<Drpc> {
    if drpcs == [] then None
    else if DrpcKey(drpcs[|drpcs| - 1]) == key then Some(drpcs[|drpcs| - 1])
    else LastByKey(drpcs[..|drpcs| - 1], key)
  }

  function Discovered(drpcs: seq<Drpc>, policy: string): nat {
    if drpcs == [] then 0
    else
      var drpc := drpcs[|drpcs| - 1];
      Discovered(drpcs[..|drpcs| - 1], policy) + if drpc.ns == DISCOVERED_APP_NS && drpc.policy == policy then 1 else 0
  }

  type PlacementMap = map<string, Drpc>

  ghost predicate MapsLast(m: PlacementMap, drpcs: seq<Drpc>) {
    forall key :: LastByKey(drpcs, key) == if key in m then Some(m[key]) else None
  }

  /** No policy has a name that an object without it would still find. */
  predicate OrdinaryPolicies(drpcs: seq<Drpc>) {
    forall d :: d in drpcs ==> !Inherited(d.policy)
  }

  predicate OrdinaryMap(m: PlacementMap) {
    forall key :: key in m ==> !Inherited(m[key].policy)
  }

  lemma {:induction false} LastByKeyIn(drpcs: seq<Drpc>, key: string)
    ensures LastByKey(drpcs, key).Some? ==> LastByKey(drpcs, key).value in drpcs
  {
    if drpcs == [] {
    } else {
      LastByKeyIn(drpcs[..|drpcs| - 1], key);
    }
  }

  lemma MapsOnlyOrdinary(m: PlacementMap, drpcs: seq<Drpc>)
    requires MapsLast(m, drpcs) && OrdinaryPolicies(drpcs)
    ensures OrdinaryMap(m)
  {
    forall key | key in m
      ensures !Inherited(m[key].policy)
    {
      LastByKeyIn(drpcs, key);
      assert LastByKey(drpcs, key) == Some(m[key]);
    }
  }

  method GetProtectedPlacementMap(loadedWOError: bool, drpcs: seq<Drpc>) returns (m: PlacementMap, counts: Counts)
    requires OrdinaryPolicies(drpcs)
    ensures var seen := if loadedWOError then drpcs else [];
            MapsLast(m, seen) && NoZeros(counts) && forall p :: Count(counts, p) == Discovered(seen, p)
  {
    m, counts := map[], map[];
    if loadedWOError {
      for i := 0 to |drpcs|
        invariant MapsLast(m, drpcs[..i])
        invariant NoZeros(counts) && forall p :: Count(counts, p) == Discovered(drpcs[..i], p)
      {
        assert drpcs[..i + 1][..i] == drpcs[..i];
        m := m[DrpcKey(drpcs[i]) := drpcs[i]];
        if drpcs[i].ns == DISCOVERED_APP_NS {
          counts := Incremented(counts, drpcs[i].policy);
        }
      }
      assert drpcs[..|drpcs|] == drpcs;
    }
  }

  // ----- ApplicationSets -----

  predicate Guards(m: PlacementMap, key: string, policy: string) {
    key in m && m[key].policy == policy
  }

  function AppSetKey(a: AppSet): string {
    PlacementKey(a.placementName, PLACEMENT_KIND, a.ns)
  }

  function AppSetsGuarded(appSets: seq<AppSet>, m: PlacementMap, policy: string): nat {
    if appSets == [] then 0
    else
      AppSetsGuarded(appSets[..|appSets| - 1], m, policy)
      + if Guards(m, AppSetKey(appSets[|appSets| - 1]), policy) then 1 else 0
  }

  method CountDRPolicyToAppSets(loadedWOError: bool, appSets: seq<AppSet>, m: PlacementMap) returns (counts: Counts)
    requires OrdinaryMap(m)
    ensures var seen := if loadedWOError then appSets else [];
            NoZeros(counts) && forall p :: Count(counts, p) == AppSetsGuarded(seen, m, p)
  {
    counts := map[];
    if loadedWOError {
      for i := 0 to |appSets|
        invariant NoZeros(counts) && forall p :: Count(counts, p) == AppSetsGuarded(appSets[..i], m, p)
      {
        assert appSets[..i + 1][..i] == appSets[..i];
        var key := AppSetKey(appSets[i]);
        if key in m {
          counts := Incremented(counts, m[key].policy);
        }
      }
      assert appSets[..|appSets|] == appSets;
    }
  }

  // ----- subscriptions -----

  function SubKey(sub: Subscription): string {
    if sub.ref.Some? then PlacementKey(sub.ref.value.name, sub.ref.value.kind, sub.ns) else ""
  }

  type SubsMap = map<string, set<string>>

  /** Exactly the applications of these subscriptions have a key. */
  ghost predicate MapsApps(m: SubsMap, subs: seq<Subscription>) {
    forall a :: a in m <==> exists sub :: sub in subs && IsPlacementModel(sub.ref) && AppKey(sub) == a
  }

  /** The placement keys of the subscriptions of one application key. */
  ghost predicate MapsKeys(keys: set<string>, subs: seq<Subscription>, a: string) {
    forall k :: k in keys <==>
      exists sub :: sub in subs && IsPlacementModel(sub.ref) && AppKey(sub) == a && SubKey(sub) == k
  }

  ghost predicate MapsSubs(m: SubsMap, subs: seq<Subscription>) {
    MapsApps(m, subs) && forall a :: a in m ==> MapsKeys(m[a], subs, a)
  }

  lemma KeysOfMore(keys: set<string>, subs: seq<Subscription>, sub: Subscription, a: string)
    requires MapsKeys(keys, subs, a)
    ensures IsPlacementModel(sub.ref) && AppKey(sub) == a ==> MapsKeys(keys + {SubKey(sub)}, subs + [sub], a)
    ensures !(IsPlacementModel(sub.ref) && AppKey(sub) == a) ==> MapsKeys(keys, subs + [sub], a)
  {
    assert forall x :: x in subs + [sub] <==> x in subs || x == sub;
  }

  lemma AppsOfMore(was: SubsMap, m: SubsMap, subs: seq<Subscription>, sub: Subscription)
    requires MapsApps(was, subs)
    requires m.Keys == if IsPlacementModel(sub.ref) then was.Keys + {AppKey(sub)} else was.Keys
    ensures MapsApps(m, subs + [sub])
  {
    assert forall x :: x in subs + [sub] <==> x in subs || x == sub;
    assert forall a :: a in m <==> a in m.Keys;
  }

  lemma SubAdded(was: SubsMap, m: SubsMap, subs: seq<Subscription>, sub: Subscription)
    requires MapsSubs(was, subs)
    requires m == if IsPlacementModel(sub.ref) then
                    was[AppKey(sub) := (if AppKey(sub) in was then was[AppKey(sub)] else {}) + {SubKey(sub)}]
                  else was
    ensures MapsSubs(m, subs + [sub])
  {
    AppsOfMore(was, m, subs, sub);
    forall a | a in m
      ensures MapsKeys(m[a], subs + [sub], a)
    {
      var keys := if a in was then was[a] else {};
      assert MapsKeys(keys, subs, a);
      KeysOfMore(keys, subs, sub, a);
    }
  }

  method MapSubscriptionsToPlacements(loadedWOError: bool, subs: seq<Subscription>) returns (m: SubsMap)
    ensures MapsSubs(m, if loadedWOError then subs else [])
  {
    m := map[];
    if loadedWOError {
      for i := 0 to |subs|
        invariant MapsSubs(m, subs[..i])
      {
        var sub := subs[i];
        ghost var was := m;
        if IsPlacementModel(sub.ref) {
          var appUniqueName, placementUniqueName := AppKey(sub), SubKey(sub);
          if appUniqueName !in m {
            m := m[appUniqueName := {}];
          }
          m := m[appUniqueName := m[appUniqueName] + {placementUniqueName}];
        }
        SubAdded(was, m, subs[..i], sub);
        assert subs[..i + 1] == subs[..i] + [sub];
      }
      assert subs[..|subs|] == subs;
    }
  }

  /** The policies that guard some of the placements. */
  function PoliciesOf(placements: set<string>, m: PlacementMap): set<string> {
    set k | k in placements && k in m :: m[k].policy
  }

  /** The application keys, among these, with a placement that the policy guards. */
  function AppsGuarded(apps: set<string>, subsMap: SubsMap, m: PlacementMap, policy: string): set<string> {
    set a | a in apps && a in subsMap && policy in PoliciesOf(subsMap[a], m)
  }

  method PolicyNames(placements: set<string>, m: PlacementMap) returns (names: set<string>)
    ensures names == PoliciesOf(placements, m)
  {
    names := {};
    var rest := placements;
    while rest != {}
      invariant rest <= placements && names == PoliciesOf(placements - rest, m)
      decreases rest
    {
      var k :| k in rest;
      if k in m {
        names := names + {m[k].policy};
      }
      rest := rest - {k};
    }
    assert placements - rest == placements;
  }

  method CountEach(counts: Counts, names: set<string>) returns (r: Counts)
    requires NoZeros(counts)
    ensures NoZeros(r) && forall p :: Count(r, p) == Count(counts, p) + if p in names then 1 else 0
  {
    r := counts;
    var rest := names;
    while rest != {}
      invariant rest <= names && NoZeros(r)
      invariant forall p :: Count(r, p) == Count(counts, p) + if p in names - rest then 1 else 0
      decreases rest
    {
      var name :| name in rest;
      r := Incremented(r, name);
      rest := rest - {name};
    }
  }

  lemma OneMoreApp(seen: set<string>, a: string, subsMap: SubsMap, m: PlacementMap, p: string)
    requires a in subsMap && a !in seen
    ensures |AppsGuarded(seen + {a}, subsMap, m, p)|
         == |AppsGuarded(seen, subsMap, m, p)| + if p in PoliciesOf(subsMap[a], m) then 1 else 0
  {
    var before := AppsGuarded(seen, subsMap, m, p);
    if p in PoliciesOf(subsMap[a], m) {
      assert AppsGuarded(seen + {a}, subsMap, m, p) == before + {a};
    } else {
      assert AppsGuarded(seen + {a}, subsMap, m, p) == before;
    }
  }

  /** Visits the applications in any order: the counts do not depend on it. */
  method CountDRPolicyToSubscriptions(subsMap: SubsMap, m: PlacementMap) returns (counts: Counts)
    requires OrdinaryMap(m)
    ensures NoZeros(counts) && forall p :: Count(counts, p) == |AppsGuarded(subsMap.Keys, subsMap, m, p)|
  {
    counts := map[];
    var rest := subsMap.Keys;
    assert forall p :: AppsGuarded({}, subsMap, m, p) == {};
    assert subsMap.Keys - rest == {};
    while rest != {}
      invariant rest <= subsMap.Keys && NoZeros(counts)
      invariant forall p :: Count(counts, p) == |AppsGuarded(subsMap.Keys - rest, subsMap, m, p)|
      decreases rest
    {
      var a :| a in rest;
      var names := PolicyNames(subsMap[a], m);
      ghost var seen := subsMap.Keys - rest;
      counts := CountEach(counts, names);
      rest := rest - {a};
      forall p
        ensures |AppsGuarded(seen + {a}, subsMap, m, p)|
             == |AppsGuarded(seen, subsMap, m, p)| + if p in names then 1 else 0
      {
        OneMoreApp(seen, a, subsMap, m, p);
      }
      assert subsMap.Keys - rest == seen + {a};
    }
    assert subsMap.Keys - rest == subsMap.Keys;
  }

  // ----- all together -----

  method AggregateDRPolicyCounts(discovered: Counts, appSets: Counts, subs: Counts) returns (total: Counts)
    requires NoZeros(discovered) && NoZeros(appSets) && NoZeros(subs)
    ensures NoZeros(total)
    ensures forall p :: Count(total, p) == Count(discovered, p) + Count(appSets, p) + Count(subs, p)
  {
    var names := discovered.Keys + appSets.Keys + subs.Keys;
    total := map[];
    var rest := names;
    while rest != {}
      invariant rest <= names && NoZeros(total)
      invariant forall p :: Count(total, p) ==
                  if p in names - rest then Count(discovered, p) + Count(appSets, p) + Count(subs, p) else 0
      decreases rest
    {
      var name :| name in rest;
      ghost var was, seen := total, names - rest;
      total := total[name := Count(discovered, name) + Count(appSets, name) + Count(subs, name)];
      rest := rest - {name};
      assert names - rest == seen + {name};
      assert forall p :: p != name ==> Count(total, p) == Count(was, p);
    }
  }

  datatype Watched = Watched(drpcs: seq<Drpc>, appSets: seq<AppSet>, subs: seq<Subscription>)

  /** The state of one watch. */
  datatype Watch = Watch(loaded: bool, failed: bool)

  predicate WithoutError(watch: Watch) {
    watch.loaded && !watch.failed
  }

  /** What the counts see: a list that has not loaded, or has failed to, counts as empty. */
  function Seen(w: Watched, drpcs: Watch, appSets: Watch, subs: Watch): Watched {
    Watched(if WithoutError(drpcs) then w.drpcs else [],
            if WithoutError(appSets) then w.appSets else [],
            if WithoutError(subs) then w.subs else [])
  }

  /** The last DRPC whose reference spells this key belongs to the policy. */
  predicate KeyProtectedBy(drpcs: seq<Drpc>, key: string, policy: string) {
    var drpc := LastByKey(drpcs, key);
    drpc.Some? && drpc.value.policy == policy
  }

  function AppSetsProtected(appSets: seq<AppSet>, drpcs: seq<Drpc>, policy: string): nat {
    if appSets == [] then 0
    else
      AppSetsProtected(appSets[..|appSets| - 1], drpcs, policy)
      + if KeyProtectedBy(drpcs, AppSetKey(appSets[|appSets| - 1]), policy) then 1 else 0
  }

  /** The keys of the applications with a subscription whose placement the policy protects. */
  function SubscriptionApps(w: Watched, policy: string): set<string> {
    set sub | sub in w.subs && IsPlacementModel(sub.ref) && KeyProtectedBy(w.drpcs, SubKey(sub), policy) :: AppKey(sub)
  }

  /** The count of a policy, by scanning the three lists. */
  function PolicyCount(w: Watched, policy: string): nat {
    Discovered(w.drpcs, policy) + AppSetsProtected(w.appSets, w.drpcs, policy) + |SubscriptionApps(w, policy)|
  }

  lemma {:induction false} AppSetsByScan(appSets: seq<AppSet>, drpcs: seq<Drpc>, m: PlacementMap, policy: string)
    requires MapsLast(m, drpcs)
    ensures AppSetsGuarded(appSets, m, policy) == AppSetsProtected(appSets, drpcs, policy)
  {
    if appSets == [] {
    } else {
      AppSetsByScan(appSets[..|appSets| - 1], drpcs, m, policy);
      assert Guards(m, AppSetKey(appSets[|appSets| - 1]), policy)
         <==> KeyProtectedBy(drpcs, AppSetKey(appSets[|appSets| - 1]), policy);
    }
  }

  lemma AppsByScan(w: Watched, subsMap: SubsMap, m: PlacementMap, policy: string)
    requires MapsLast(m, w.drpcs) && MapsSubs(subsMap, w.subs)
    ensures AppsGuarded(subsMap.Keys, subsMap, m, policy) == SubscriptionApps(w, policy)
  {
    forall a
      ensures a in AppsGuarded(subsMap.Keys, subsMap, m, policy) <==> a in SubscriptionApps(w, policy)
    {
      if a in AppsGuarded(subsMap.Keys, subsMap, m, policy) {
        var k :| k in subsMap[a] && k in m && m[k].policy == policy;
        assert KeyProtectedBy(w.drpcs, k, policy);
      }
      if a in SubscriptionApps(w, policy) {
        var sub :| sub in w.subs && IsPlacementModel(sub.ref)
                   && KeyProtectedBy(w.drpcs, SubKey(sub), policy) && AppKey(sub) == a;
        assert SubKey(sub) in subsMap[a] && SubKey(sub) in m;
      }
    }
  }

  /** The counts, and whether they are those of all three lists. */
  method UseProtectedApplicationsWatch(w: Watched, drpcWatch: Watch, appSetWatch: Watch, subsWatch: Watch)
    returns (total: Counts, allLoaded: bool)
    requires OrdinaryPolicies(w.drpcs)
    ensures NoZeros(total)
    ensures forall p :: Count(total, p) == PolicyCount(Seen(w, drpcWatch, appSetWatch, subsWatch), p)
    ensures allLoaded ==> Seen(w, drpcWatch, appSetWatch, subsWatch) == w
    ensures allLoaded <==> WithoutError(drpcWatch) && WithoutError(appSetWatch) && WithoutError(subsWatch)
  {
    ghost var seen := Seen(w, drpcWatch, appSetWatch, subsWatch);
    allLoaded := WithoutError(drpcWatch) && WithoutError(subsWatch) && WithoutError(appSetWatch);
    var m, discovered := GetProtectedPlacementMap(WithoutError(drpcWatch), w.drpcs);
    MapsOnlyOrdinary(m, seen.drpcs);
    var appSets := CountDRPolicyToAppSets(WithoutError(appSetWatch), w.appSets, m);
    var subsMap := MapSubscriptionsToPlacements(WithoutError(subsWatch), w.subs);
    var subs := CountDRPolicyToSubscriptions(subsMap, m);
    total := AggregateDRPolicyCounts(discovered, appSets, subs);
    forall p
      ensures Count(total, p) == PolicyCount(seen, p)
    {
      AppSetsByScan(seen.appSets, seen.drpcs, m, p);
      AppsByScan(seen, subsMap, m, p);
    }
  }

  // ----- what the keys stand for -----

  /** Names and kinds as the API server accepts them. */
  ghost predicate WellNamed(drpcs: seq<Drpc>) {
    forall d :: d in drpcs ==> IsName(d.ref.name) && IsKind(d.ref.kind) && IsName(d.ns)
  }

  /** No two DRPCs reference the same placement. */
  ghost predicate OnePerPlacement(drpcs: seq<Drpc>) {
    forall i, j :: 0 <= i < j < |drpcs| ==> drpcs[i].ref != drpcs[j].ref || drpcs[i].ns != drpcs[j].ns
  }

  /** Some DRPC of the policy references this very placement. */
  ghost predicate ProtectedBy(drpcs: seq<Drpc>, ref: PlacementRef, ns: string, policy: string) {
    exists d :: d in drpcs && d.ref == ref && d.ns == ns && d.policy == policy
  }

  lemma {:induction false} LastByKeyIs(drpcs: seq<Drpc>, key: string)
    ensures var d := LastByKey(drpcs, key);
            && (d.Some? ==> d.value in drpcs && DrpcKey(d.value) == key)
            && (d.None? ==> forall x :: x in drpcs ==> DrpcKey(x) != key)
  {
    if drpcs == [] {
    } else {
      LastByKeyIs(drpcs[..|drpcs| - 1], key);
      assert drpcs == drpcs[..|drpcs| - 1] + [drpcs[|drpcs| - 1]];
    }
  }

  /** With one DRPC per placement, a key is protected by a policy exactly if the placement is. */
  lemma KeyMeansPlacement(drpcs: seq<Drpc>, ref: PlacementRef, ns: string, policy: string)
    requires WellNamed(drpcs) && OnePerPlacement(drpcs)
    requires IsName(ref.name) && IsKind(ref.kind) && IsName(ns)
    ensures KeyProtectedBy(drpcs, PlacementKey(ref.name, ref.kind, ns), policy) <==> ProtectedBy(drpcs, ref, ns, policy)
  {
    var key := PlacementKey(ref.name, ref.kind, ns);
    LastByKeyIs(drpcs, key);
    forall d | d in drpcs
      ensures DrpcKey(d) == key <==> d.ref == ref && d.ns == ns
    {
      PlacementKeyInjective(d.ref.name, d.ref.kind, d.ns, ref.name, ref.kind, ns);
    }
    if ProtectedBy(drpcs, ref, ns, policy) {
      var d :| d in drpcs && d.ref == ref && d.ns == ns && d.policy == policy;
      var last := LastByKey(drpcs, key).value;
      var i :| 0 <= i < |drpcs| && drpcs[i] == d;
      var j :| 0 <= j < |drpcs| && drpcs[j] == last;
      assert i == j;
    }
  }

  predicate WellNamedSub(sub: Subscription) {
    IsName(sub.ns) && (sub.ref.Some? ==> IsName(sub.ref.value.name))
  }

  ghost predicate SubProtected(drpcs: seq<Drpc>, sub: Subscription, policy: string) {
    sub.ref.Some? && ProtectedBy(drpcs, sub.ref.value, sub.ns, policy)
  }

  /** A placement of this application set or subscription is protected, in terms of placements. */
  ghost predicate AppSetProtected(drpcs: seq<Drpc>, a: AppSet, policy: string) {
    ProtectedBy(drpcs, PlacementRef(PLACEMENT_KIND, a.placementName), a.ns, policy)
  }

  ghost function AppSetCount(appSets: seq<AppSet>, drpcs: seq<Drpc>, policy: string): nat {
    if appSets == [] then 0
    else
      AppSetCount(appSets[..|appSets| - 1], drpcs, policy)
      + if AppSetProtected(drpcs, appSets[|appSets| - 1], policy) then 1 else 0
  }

  ghost predicate WellNamedAll(w: Watched) {
    && WellNamed(w.drpcs) && OnePerPlacement(w.drpcs)
    && (forall a :: a in w.appSets ==> IsName(a.placementName) && IsName(a.ns))
    && (forall sub :: sub in w.subs ==> WellNamedSub(sub))
  }

  lemma {:induction false} AppSetsByPlacement(appSets: seq<AppSet>, drpcs: seq<Drpc>, policy: string)
    requires WellNamed(drpcs) && OnePerPlacement(drpcs)
    requires forall a :: a in appSets ==> IsName(a.placementName) && IsName(a.ns)
    ensures AppSetsProtected(appSets, drpcs, policy) == AppSetCount(appSets, drpcs, policy)
  {
    if appSets == [] {
    } else {
      var n := |appSets| - 1;
      assert appSets == appSets[..n] + [appSets[n]];
      AppSetsByPlacement(appSets[..n], drpcs, policy);
      assert appSets[n] in appSets;
      KeyMeansPlacement(drpcs, PlacementRef(PLACEMENT_KIND, appSets[n].placementName), appSets[n].ns, policy);
    }
  }

  /** With one DRPC per placement, a policy's count is its discovered DRPCs, plus the application
      sets whose placement it protects, plus the distinct application keys with a subscription
      whose placement it protects. */
  lemma CountIsByPlacement(w: Watched, policy: string)
    requires WellNamedAll(w)
    ensures var apps :=
              set sub | sub in w.subs && IsPlacementModel(sub.ref) && SubProtected(w.drpcs, sub, policy) :: AppKey(sub);
            PolicyCount(w, policy) == Discovered(w.drpcs, policy) + AppSetCount(w.appSets, w.drpcs, policy) + |apps|
  {
    AppSetsByPlacement(w.appSets, w.drpcs, policy);
    forall sub | sub in w.subs && IsPlacementModel(sub.ref)
      ensures KeyProtectedBy(w.drpcs, SubKey(sub), policy) <==> SubProtected(w.drpcs, sub, policy)
    {
      KeyMeansPlacement(w.drpcs, sub.ref.value, sub.ns, policy);
    }
    assert SubscriptionApps(w, policy)
        == set sub | sub in w.subs && IsPlacementModel(sub.ref) && SubProtected(w.drpcs, sub, policy) :: AppKey(sub);
  }

  // ----- the count by fields -----

  lemma {:induction false} DiscoveredIs(drpcs: seq<Drpc>, policy: string)
    ensures Discovered(drpcs, policy)
         == |Positions(drpcs, (d: Drpc) => d.ns == "openshift-dr-ops" && d.policy == policy)|
  {
    var p := (d: Drpc) => d.ns == "openshift-dr-ops" && d.policy == policy;
    if drpcs == [] {
      assert Positions(drpcs, p) == {};
    } else {
      var n := |drpcs| - 1;
      DiscoveredIs(drpcs[..n], policy);
      PositionsSnoc(drpcs[..n], drpcs[n], p);
      assert drpcs[..n] + [drpcs[n]] == drpcs;
    }
  }

  /** Some DRPC of the policy references the placement of this kind, name and namespace. */
  predicate Referenced(drpcs: seq<Drpc>, kind: string, name: string, ns: string, policy: string) {
    exists d :: d in drpcs && d.ref.kind == kind && d.ref.name == name && d.ns == ns && d.policy == policy
  }

  lemma {:induction false} AppSetCountIs(appSets: seq<AppSet>, drpcs: seq<Drpc>, policy: string)
    ensures AppSetCount(appSets, drpcs, policy)
         == |Positions(appSets, (a: AppSet) => Referenced(drpcs, "Placement", a.placementName, a.ns, policy))|
  {
    var p := (a: AppSet) => Referenced(drpcs, "Placement", a.placementName, a.ns, policy);
    if appSets == [] {
      assert Positions(appSets, p) == {};
    } else {
      var n := |appSets| - 1;
      AppSetCountIs(appSets[..n], drpcs, policy);
      PositionsSnoc(appSets[..n], appSets[n], p);
      assert appSets[..n] + [appSets[n]] == appSets;
      ProtectedIsReferenced(drpcs, PlacementRef("Placement", appSets[n].placementName), appSets[n].ns, policy);
    }
  }

  lemma ProtectedIsReferenced(drpcs: seq<Drpc>, ref: PlacementRef, ns: string, policy: string)
    ensures ProtectedBy(drpcs, ref, ns, policy) <==> Referenced(drpcs, ref.kind, ref.name, ns, policy)
  {
  }

  /** The applications of a policy, by key: those with a subscription whose placement or placement rule
      the policy references. */
  function AppTexts(w: Watched, policy: string): set<string> {
    set sub | sub in w.subs && sub.ref.Some? && sub.ref.value.kind in ["PlacementRule", "Placement"]
              && Referenced(w.drpcs, sub.ref.value.kind, sub.ref.value.name, sub.ns, policy)
            :: (if sub.app.Some? then sub.app.value else "undefined") + "-" + sub.ns
  }

  /** A policy's count: its DRPCs in the namespace of discovered applications, the ApplicationSets
      whose placement it references, and the keys of the subscription applications it references. */
  lemma CountByFields(w: Watched, policy: string)
    requires WellNamedAll(w)
    ensures PolicyCount(w, policy)
         == |Positions(w.drpcs, (d: Drpc) => d.ns == "openshift-dr-ops" && d.policy == policy)|
            + |Positions(w.appSets, (a: AppSet) => Referenced(w.drpcs, "Placement", a.placementName, a.ns, policy))|
            + |AppTexts(w, policy)|
  {
    CountIsByPlacement(w, policy);
    DiscoveredIs(w.drpcs, policy);
    AppSetCountIs(w.appSets, w.drpcs, policy);
    AppTextsAre(w, policy);
  }

  lemma AppTextsAre(w: Watched, policy: string)
    ensures AppTexts(w, policy)
         == set sub | sub in w.subs && IsPlacementModel(sub.ref) && SubProtected(w.drpcs, sub, policy) :: AppKey(sub)
  {
    forall sub | sub in w.subs && sub.ref.Some?
      ensures SubProtected(w.drpcs, sub, policy)
         <==> Referenced(w.drpcs, sub.ref.value.kind, sub.ref.value.name, sub.ns, policy)
    {
      ProtectedIsReferenced(w.drpcs, sub.ref.value, sub.ns, policy);
    }
    var keys :=
      set sub | sub in w.subs && IsPlacementModel(sub.ref) && SubProtected(w.drpcs, sub, policy) :: AppKey(sub);
    forall a
      ensures a in AppTexts(w, policy) <==> a in keys
    {
      if a in AppTexts(w, policy) {
        var sub :| sub in w.subs && sub.ref.Some? && sub.ref.value.kind in ["PlacementRule", "Placement"]
                   && Referenced(w.drpcs, sub.ref.value.kind, sub.ref.value.name, sub.ns, policy)
                   && (if sub.app.Some? then sub.app.value else "undefined") + "-" + sub.ns == a;
        assert AppKey(sub) == a;
      }
      if a in keys {
        var sub :| sub in w.subs && IsPlacementModel(sub.ref) && SubProtected(w.drpcs, sub, policy) && AppKey(sub) == a;
      }
    }
  }

  /** The DRPC kept for a key is the last one that spells it. */
  lemma {:induction false} LastByKeyAt(drpcs: seq<Drpc>, key: string) returns (j: int)
    ensures -1 <= j < |drpcs| && LastByKey(drpcs, key) == if j >= 0 then Some(drpcs[j]) else None
    ensures j >= 0 ==> drpcs[j].ref.name + "-" + drpcs[j].ref.kind + "-" + drpcs[j].ns == key
    ensures forall i :: j < i < |drpcs| ==> drpcs[i].ref.name + "-" + drpcs[i].ref.kind + "-" + drpcs[i].ns != key
  {
    if drpcs == [] {
      j := -1;
    } else if DrpcKey(drpcs[|drpcs| - 1]) == key {
      j := |drpcs| - 1;
    } else {
      j := LastByKeyAt(drpcs[..|drpcs| - 1], key);
    }
  }

  // ----- application keys are not injective -----

  /** What names an application: the `app` label of its subscriptions, if they have one, and their namespace. */
  datatype App = App(name: Option<string>, ns: string)

  function AppOf(sub: Subscription): App {
    App(sub.app, sub.ns)
  }

  /** A label in a template string. */
  function Text(name: Option<string>): string {
    if name.Some? then name.value else "undefined"
  }

  function KeyOfApp(a: App): string {
    Text(a.name) + "-" + a.ns
  }

  /** The label of `a` goes on where that of `b` ends, with what the namespace of `b` begins with. */
  ghost predicate Splits(a: App, b: App) {
    exists t :: Text(a.name) == Text(b.name) + "-" + t && b.ns == t + "-" + a.ns
  }

  /** One has no label, the other is labelled with the text that a missing label becomes. */
  predicate Misread(a: App, b: App) {
    a.ns == b.ns && a.name.None? && b.name == Some("undefined")
  }

  ghost predicate Collide(a: App, b: App) {
    Splits(a, b) || Splits(b, a) || Misread(a, b) || Misread(b, a)
  }

  lemma JoinedIff(x: string, y: string, u: string, v: string)
    requires |x| > |u|
    ensures x + "-" + y == u + "-" + v <==> exists t :: x == u + "-" + t && v == t + "-" + y
  {
    if x + "-" + y == u + "-" + v {
      var t := x[|u| + 1..];
      assert (x + "-" + y)[..|u|] == x[..|u|] && (u + "-" + v)[..|u|] == u;
      assert (x + "-" + y)[|u|] == x[|u|] && (u + "-" + v)[|u|] == '-';
      assert x == u + "-" + t;
      assert (x + "-" + y)[|u| + 1..] == t + "-" + y && (u + "-" + v)[|u| + 1..] == v;
    }
    if t :| x == u + "-" + t && v == t + "-" + y {
      assert x + "-" + y == u + "-" + t + "-" + y;
      assert u + "-" + v == u + "-" + t + "-" + y;
    }
  }

  lemma JoinedSameLength(x: string, y: string, u: string, v: string)
    requires |x| == |u|
    ensures x + "-" + y == u + "-" + v <==> x == u && y == v
  {
    if x + "-" + y == u + "-" + v {
      assert (x + "-" + y)[..|u|] == x && (u + "-" + v)[..|u|] == u;
      assert (x + "-" + y)[|u| + 1..] == y && (u + "-" + v)[|u| + 1..] == v;
    }
  }

  /** When two different applications share a key. */
  lemma KeysMeetIff(a: App, b: App)
    requires a != b
    ensures KeyOfApp(a) == KeyOfApp(b) <==> Collide(a, b)
  {
    var x, u := Text(a.name), Text(b.name);
    if |x| > |u| {
      JoinedIff(x, a.ns, u, b.ns);
    } else if |x| < |u| {
      JoinedIff(u, b.ns, x, a.ns);
    } else {
      JoinedSameLength(x, a.ns, u, b.ns);
    }
  }

  /** Two applications of different namespaces can share a key and count once. */
  lemma AppKeysCollide()
    ensures exists a, b :: a != b && KeyOfApp(a) == KeyOfApp(b)
  {
    var a, b := App(Some("a-b"), "c"), App(Some("a"), "b-c");
    assert a.name.value == "a" + "-" + "b" && b.ns == "b" + "-" + "c";
    assert Splits(a, b);
    assert a.ns != b.ns by {
      assert |a.ns| != |b.ns|;
    }
    KeysMeetIff(a, b);
  }

  lemma OthersDoNotCollide(rest: set<App>, x: App)
    requires x !in rest && KeyOfApp(x) !in set a | a in rest :: KeyOfApp(a)
    ensures forall a :: a in rest ==> !Collide(a, x) && !Collide(x, a)
  {
    forall a | a in rest
      ensures !Collide(a, x) && !Collide(x, a)
    {
      assert KeyOfApp(a) != KeyOfApp(x);
      KeysMeetIff(a, x);
      KeysMeetIff(x, a);
    }
  }

  lemma {:induction false} KeysCountApps(apps: set<App>)
    ensures var keys := set a | a in apps :: KeyOfApp(a);
            && |keys| <= |apps|
            && (|keys| == |apps| <==> forall a, b :: a in apps && b in apps && a != b ==> !Collide(a, b))
  {
    var keys := set a | a in apps :: KeyOfApp(a);
    if apps == {} {
      assert keys == {};
    } else {
      var x :| x in apps;
      var rest := apps - {x};
      var restKeys := set a | a in rest :: KeyOfApp(a);
      KeysCountApps(rest);
      assert keys == restKeys + {KeyOfApp(x)};
      assert forall a :: a in apps <==> a == x || a in rest;
      if KeyOfApp(x) in restKeys {
        assert keys == restKeys;
        var b :| b in rest && KeyOfApp(b) == KeyOfApp(x);
        KeysMeetIff(b, x);
        assert b in apps;
      } else {
        OthersDoNotCollide(rest, x);
      }
    }
  }

  predicate CountsFor(w: Watched, policy: string, sub: Subscription) {
    IsPlacementModel(sub.ref) && KeyProtectedBy(w.drpcs, SubKey(sub), policy)
  }

  /** The applications with a subscription whose placement the policy protects. */
  function AppsOf(w: Watched, policy: string): set<App> {
    set sub | sub in w.subs && CountsFor(w, policy, sub) :: AppOf(sub)
  }

  lemma KeysOfApps(w: Watched, policy: string)
    ensures SubscriptionApps(w, policy) == set a | a in AppsOf(w, policy) :: KeyOfApp(a)
  {
    var keys := set a | a in AppsOf(w, policy) :: KeyOfApp(a);
    forall k
      ensures k in keys <==> k in SubscriptionApps(w, policy)
    {
      if k in SubscriptionApps(w, policy) {
        var sub :| sub in w.subs && IsPlacementModel(sub.ref)
                   && KeyProtectedBy(w.drpcs, SubKey(sub), policy) && AppKey(sub) == k;
        assert CountsFor(w, policy, sub);
        assert AppOf(sub) in AppsOf(w, policy);
      }
      if k in keys {
        var a :| a in AppsOf(w, policy) && KeyOfApp(a) == k;
        var sub :| sub in w.subs && CountsFor(w, policy, sub) && AppOf(sub) == a;
        assert AppKey(sub) == k;
      }
    }
  }

  /** The subscription part of a policy's count is the number of applications, label and namespace,
      exactly if no two of them collide. */
  lemma SubscriptionAppsExactIff(w: Watched, policy: string)
    ensures |SubscriptionApps(w, policy)| <= |AppsOf(w, policy)|
    ensures |SubscriptionApps(w, policy)| == |AppsOf(w, policy)|
       <==> forall a, b :: a in AppsOf(w, policy) && b in AppsOf(w, policy) && a != b ==> !Collide(a, b)
  {
    KeysOfApps(w, policy);
    KeysCountApps(AppsOf(w, policy));
  }

  lemma SplitsHyphens(a: App, b: App)
    requires Splits(a, b)
    ensures '-' in Text(a.name) && '-' in b.ns
  {
    var t :| Text(a.name) == Text(b.name) + "-" + t && b.ns == t + "-" + a.ns;
    assert Text(a.name)[|Text(b.name)|] == '-' && b.ns[|t|] == '-';
  }

  /** It is exact if no label, or no namespace, has a hyphen, and no label spells a missing one. */
  lemma ExactWithoutHyphens(w: Watched, policy: string)
    requires forall a :: a in AppsOf(w, policy) ==> a.name != Some("undefined")
    requires (forall a :: a in AppsOf(w, policy) ==> '-' !in Text(a.name))
             || (forall a :: a in AppsOf(w, policy) ==> '-' !in a.ns)
    ensures |SubscriptionApps(w, policy)| == |AppsOf(w, policy)|
  {
    var apps := AppsOf(w, policy);
    forall a, b | a in apps && b in apps && a != b
      ensures !Collide(a, b)
    {
      if Splits(a, b) {
        SplitsHyphens(a, b);
      }
      if Splits(b, a) {
        SplitsHyphens(b, a);
      }
    }
    SubscriptionAppsExactIff(w, policy);
  }

  function KeySet(subs: set<Subscription>): set<string> {
    set sub | sub in subs :: AppKey(sub)
  }

  function NamespaceSet(subs: set<Subscription>): set<string> {
    set sub | sub in subs :: sub.ns
  }

  lemma OneMoreUnlabelled(rest: set<Subscription>, x: Subscription)
    requires forall a :: a in rest ==> (AppKey(a) == AppKey(x) <==> a.ns == x.ns)
    ensures KeySet(rest + {x}) == KeySet(rest) + {AppKey(x)}
    ensures NamespaceSet(rest + {x}) == NamespaceSet(rest) + {x.ns}
    ensures AppKey(x) in KeySet(rest) <==> x.ns in NamespaceSet(rest)
  {
    if AppKey(x) in KeySet(rest) {
      var a :| a in rest && AppKey(a) == AppKey(x);
      assert a.ns in NamespaceSet(rest);
    }
    if x.ns in NamespaceSet(rest) {
      var a :| a in rest && a.ns == x.ns;
      assert AppKey(a) in KeySet(rest);
    }
  }

  lemma SameGrowth(s: set<string>, t: set<string>, a: string, b: string)
    requires |s| == |t| && (a in s <==> b in t)
    ensures |s + {a}| == |t + {b}|
  {
    if a in s {
      assert s + {a} == s && t + {b} == t;
    }
  }

  lemma {:induction false} UnlabelledKeys(subs: set<Subscription>)
    requires forall a, b :: a in subs && b in subs ==> (AppKey(a) == AppKey(b) <==> a.ns == b.ns)
    ensures |KeySet(subs)| == |NamespaceSet(subs)|
  {
    if subs == {} {
      assert KeySet(subs) == {} && NamespaceSet(subs) == {};
    } else {
      var x :| x in subs;
      var rest := subs - {x};
      UnlabelledKeys(rest);
      assert rest + {x} == subs;
      OneMoreUnlabelled(rest, x);
      SameGrowth(KeySet(rest), NamespaceSet(rest), AppKey(x), x.ns);
    }
  }

  /** Unlabelled subscriptions share a key exactly within a namespace, whatever application they
      belong to, so that they count once per namespace. */
  lemma UnlabelledCountPerNamespace(w: Watched, policy: string)
    ensures var unlabelled := set sub | sub in w.subs && CountsFor(w, policy, sub) && sub.app.None?;
            && (forall a, b :: a in unlabelled && b in unlabelled ==> (AppKey(a) == AppKey(b) <==> a.ns == b.ns))
            && |KeySet(unlabelled)| == |NamespaceSet(unlabelled)|
  {
    var unlabelled := set sub | sub in w.subs && CountsFor(w, policy, sub) && sub.app.None?;
    forall a, b | a in unlabelled && b in unlabelled
      ensures AppKey(a) == AppKey(b) <==> a.ns == b.ns
    {
      JoinedSameLength("undefined", a.ns, "undefined", b.ns);
    }
    UnlabelledKeys(unlabelled);
  }

  /** The applications, by fields: label and namespace of each subscription that the policy references. */
  lemma AppsByFields(w: Watched, policy: string)
    requires WellNamedAll(w)
    ensures AppsOf(w, policy)
         == set sub | sub in w.subs && sub.ref.Some? && sub.ref.value.kind in ["PlacementRule", "Placement"]
                      && Referenced(w.drpcs, sub.ref.value.kind, sub.ref.value.name, sub.ns, policy)
                    :: App(sub.app, sub.ns)
  {
    var fields := set sub | sub in w.subs && sub.ref.Some? && sub.ref.value.kind in ["PlacementRule", "Placement"]
                            && Referenced(w.drpcs, sub.ref.value.kind, sub.ref.value.name, sub.ns, policy)
                          :: App(sub.app, sub.ns);
    forall sub | sub in w.subs && sub.ref.Some? && sub.ref.value.kind in ["PlacementRule", "Placement"]
      ensures CountsFor(w, policy, sub)
         <==> Referenced(w.drpcs, sub.ref.value.kind, sub.ref.value.name, sub.ns, policy)
    {
      KeyMeansPlacement(w.drpcs, sub.ref.value, sub.ns, policy);
      ProtectedIsReferenced(w.drpcs, sub.ref.value, sub.ns, policy);
    }
    forall a
      ensures a in AppsOf(w, policy) <==> a in fields
    {
      if a in AppsOf(w, policy) {
        var sub :| sub in w.subs && CountsFor(w, policy, sub) && AppOf(sub) == a;
        assert sub.ref.Some?;
      }
      if a in fields {
        var sub :| sub in w.subs && sub.ref.Some? && sub.ref.value.kind in ["PlacementRule", "Placement"]
                   && Referenced(w.drpcs, sub.ref.value.kind, sub.ref.value.name, sub.ns, policy)
                   && App(sub.app, sub.ns) == a;
        assert CountsFor(w, policy, sub) && AppOf(sub) == a;
      }
    }
  }
}
