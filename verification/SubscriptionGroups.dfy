/**
 Grouping the subscriptions of each application by placement, over indexes by namespace
 (packages/mco/hooks/subscription.ts, packages/mco/utils/disaster-recovery.tsx).
 */
module SubscriptionGroups {
  import opened Options
  import opened Strings
  import opened Sequences
  import opened Grouping
  import opened Placements
  import opened PlainObjects

  datatype Operator = In | NotIn | Exists | DoesNotExist | OtherOperator

  datatype Expr = Expr(key: string, operator: Operator, values: Option<seq<string>>)

  datatype Application = Application(
    name: string, ns: string, componentKinds: seq<(string, string)>, matchExpressions: Option<seq<Expr>>)

  datatype Subscription = Subscription(name: string, ns: string, labels: map<string, string>, ref: Option<PlacementRef>)

  /** `uid` stands for the rest of the object. */
  datatype Placement = Placement(kind: string, name: string, ns: string, uid: string)

  datatype Decision = Decision(name: string, ns: string, labels: map<string, string>)

  datatype Drpc = Drpc(name: string, ns: string, ref: Option<PlacementRef>)

  datatype DrResource = DrResource(policy: string, clusters: seq<string>, drpcs: seq<Drpc>)

  datatype DrInfo = DrInfo(policy: string, clusters: seq<string>, drpc: Drpc)

  datatype Group = Group(
    subscriptions: seq<Subscription>, placement: Placement, decision: Option<Decision>, drInfo: Option<DrInfo>)

  datatype AppInfo = AppInfo(application: Application, groups: seq<Group>)

  /** Reading `kind` of a placement that was not found. */
  datatype Thrown = PlacementMissing

  const RULE_LABEL := "cluster.open-cluster-management.io/placementrule"
  const PLACEMENT_LABEL := "cluster.open-cluster-management.io/placement"

  // ----- filters -----

  predicate IsSubscriptionApp(app: Application) {
    ("apps.open-cluster-management.io", "Subscription") in app.componentKinds
  }

  predicate Satisfies(sub: Subscription, e: Expr) {
    var listed := e.values.Some? && e.key in sub.labels && sub.labels[e.key] in e.values.value;
    match e.operator
    case In => listed
    case NotIn => !listed
    case Exists => e.key in sub.labels && e.values.None?
    case DoesNotExist => e.key !in sub.labels && e.values.None?
    case OtherOperator => false
  }

  /** An application without expressions matches nothing. */
  predicate Matches(sub: Subscription, app: Application) {
    app.matchExpressions.Some? && forall e :: e in app.matchExpressions.value ==> Satisfies(sub, e)
  }

  // ----- lookups by scanning whole lists -----

  function LastPlacement(placements: seq<Placement>, ns: string, name: string): Option<Placement> {
    if placements == [] then None
    else
      var p := placements[|placements| - 1];
      if p.ns == ns && p.name == name then Some(p) else LastPlacement(placements[..|placements| - 1], ns, name)
  }

  predicate Decides(d: Decision, p: Placement) {
    var key := if p.kind == PLACEMENT_KIND then PLACEMENT_LABEL else RULE_LABEL;
    (if key in d.labels then d.labels[key] else "") == p.name && d.ns == p.ns
  }

  /** The first decision of the placement. */
  function DecisionFor(p: Placement, decisions: seq<Decision>): Option<Decision> {
    if decisions == [] then None
    else
      var front := DecisionFor(p, decisions[..|decisions| - 1]);
      if front.Some? then front
      else if Decides(decisions[|decisions| - 1], p) then Some(decisions[|decisions| - 1]) else None
  }

  predicate Protects(drpc: Drpc, p: Placement) {
    drpc.ref == Some(PlacementRef(p.kind, p.name)) && drpc.ns == p.ns
  }

  function FirstProtecting(drpcs: seq<Drpc>, p: Placement): Option<Drpc> {
    if drpcs == [] then None
    else if Protects(drpcs[0], p) then Some(drpcs[0]) else FirstProtecting(drpcs[1..], p)
  }

  /** The last resource with a DRPC for the placement, and its first such DRPC. */
  function DrInfoFor(p: Placement, resources: seq<DrResource>): Option<DrInfo> {
    if resources == [] then None
    else
      var r := resources[|resources| - 1];
      var drpc := FirstProtecting(r.drpcs, p);
      if drpc.Some? then Some(DrInfo(r.policy, r.clusters, drpc.value))
      else DrInfoFor(p, resources[..|resources| - 1])
  }

  /** `forEach` overwrites the result, so that the last match stays. */
  method FindDRResource(p: Placement, resources: seq<DrResource>) returns (result: Option<DrInfo>)
    ensures result == DrInfoFor(p, resources)
  {
    result := None;
    for i := 0 to |resources|
      invariant result == DrInfoFor(p, resources[..i])
    {
      assert resources[..i + 1][..i] == resources[..i];
      var drpc := FirstProtecting(resources[i].drpcs, p);
      if drpc.Some? {
        result := Some(DrInfo(resources[i].policy, resources[i].clusters, drpc.value));
      }
    }
    assert resources[..|resources|] == resources;
  }

  // ----- indexes -----

  function AppKeys(apps: seq<Application>): (r: seq<string>)
    ensures |r| == |apps|
  {
    if apps == [] then [] else AppKeys(apps[..|apps| - 1]) + [apps[|apps| - 1].ns]
  }

  function DecisionKeys(decisions: seq<Decision>): (r: seq<string>)
    ensures |r| == |decisions|
  {
    if decisions == [] then [] else DecisionKeys(decisions[..|decisions| - 1]) + [decisions[|decisions| - 1].ns]
  }

  function QualifyingApps(apps: seq<Application>): seq<Application> {
    if apps == [] then []
    else
      QualifyingApps(apps[..|apps| - 1])
      + if IsSubscriptionApp(apps[|apps| - 1]) then [apps[|apps| - 1]] else []
  }

  function NamespaceWiseApplications(apps: seq<Application>): Index<Application> {
    if apps == [] then Index([], map[])
    else
      var app, acc := apps[|apps| - 1], NamespaceWiseApplications(apps[..|apps| - 1]);
      if IsSubscriptionApp(app) then Pushed(acc, app.ns, app) else acc
  }

  function NamespaceWiseSubscriptions(subs: seq<Subscription>): Index<Subscription> {
    if subs == [] then Index([], map[])
    else
      var sub, acc := subs[|subs| - 1], NamespaceWiseSubscriptions(subs[..|subs| - 1]);
      if IsPlacementModel(sub.ref) then Pushed(acc, sub.ns, sub) else acc
  }

  function NamespaceWiseDecisions(decisions: seq<Decision>): Index<Decision> {
    IndexBy(DecisionKeys(decisions), decisions)
  }

  type PlacementIndex = map<string, map<string, Placement>>

  function NamesIn(index: PlacementIndex, ns: string): map<string, Placement> {
    if ns in index then index[ns] else map[]
  }

  /** Later placements of the same name and namespace replace earlier ones. */
  function NamespaceWisePlacements(placements: seq<Placement>): PlacementIndex {
    if placements == [] then map[]
    else
      var p, acc := placements[|placements| - 1], NamespaceWisePlacements(placements[..|placements| - 1]);
      acc[p.ns := NamesIn(acc, p.ns)[p.name := p]]
  }

  function NamedIn(names: map<string, Placement>, name: string): Option<Placement> {
    if name in names then Some(names[name]) else None
  }

  // ----- the indexes against the scans -----

  lemma {:induction false} PlacementIndexIsScan(placements: seq<Placement>, ns: string, name: string)
    requires !Inherited(ns) && !Inherited(name)
    ensures NamedIn(NamesIn(NamespaceWisePlacements(placements), ns), name) == LastPlacement(placements, ns, name)
  {
    if placements == [] {
    } else {
      PlacementIndexIsScan(placements[..|placements| - 1], ns, name);
    }
  }

  lemma {:induction false} DecisionIndexIsScan(p: Placement, decisions: seq<Decision>)
    ensures DecisionFor(p, Matching(DecisionKeys(decisions), decisions, p.ns)) == DecisionFor(p, decisions)
  {
    if decisions == [] {
    } else {
      var n := |decisions| - 1;
      DecisionIndexIsScan(p, decisions[..n]);
      assert DecisionKeys(decisions)[..n] == DecisionKeys(decisions[..n]);
      var m := Matching(DecisionKeys(decisions[..n]), decisions[..n], p.ns);
      if decisions[n].ns == p.ns {
        assert (m + [decisions[n]])[..|m|] == m;
      } else {
        assert m + [] == m;
      }
    }
  }

  /** The subscriptions of a namespace that reference a placement or placement rule. */
  function InNamespace(subs: seq<Subscription>, ns: string): seq<Subscription> {
    if subs == [] then []
    else
      var sub := subs[|subs| - 1];
      InNamespace(subs[..|subs| - 1], ns) + if IsPlacementModel(sub.ref) && sub.ns == ns then [sub] else []
  }

  lemma {:induction false} InNamespaceIn(subs: seq<Subscription>, ns: string)
    ensures forall sub :: sub in InNamespace(subs, ns) ==> sub in subs
  {
    if subs == [] {
    } else {
      InNamespaceIn(subs[..|subs| - 1], ns);
    }
  }

  lemma {:induction false} SubscriptionIndexIsScan(subs: seq<Subscription>, ns: string)
    ensures ListAt(NamespaceWiseSubscriptions(subs), ns) == InNamespace(subs, ns)
  {
    if subs == [] {
    } else {
      SubscriptionIndexIsScan(subs[..|subs| - 1], ns);
    }
  }

  lemma {:induction false} ApplicationIndexIsGrouping(apps: seq<Application>)
    ensures NamespaceWiseApplications(apps) == IndexBy(AppKeys(QualifyingApps(apps)), QualifyingApps(apps))
  {
    if apps == [] {
    } else {
      var n := |apps| - 1;
      ApplicationIndexIsGrouping(apps[..n]);
      var q := QualifyingApps(apps[..n]);
      if IsSubscriptionApp(apps[n]) {
        assert (q + [apps[n]])[..|q|] == q;
        assert AppKeys(q + [apps[n]]) == AppKeys(q) + [apps[n].ns];
        IndexSnoc(AppKeys(q), q, apps[n].ns, apps[n]);
      } else {
        assert q + [] == q;
      }
    }
  }

  // ----- the groups of one application -----

  /** The application's subscriptions: the scan of all of them. */
  function MatchingSubs(subs: seq<Subscription>, app: Application): seq<Subscription> {
    if subs == [] then []
    else
      var sub := subs[|subs| - 1];
      MatchingSubs(subs[..|subs| - 1], app) + if IsPlacementModel(sub.ref) && Matches(sub, app) then [sub] else []
  }

  function AppSubs(subs: seq<Subscription>, app: Application): seq<Subscription> {
    if subs == [] then []
    else
      var sub := subs[|subs| - 1];
      AppSubs(subs[..|subs| - 1], app)
      + if IsPlacementModel(sub.ref) && sub.ns == app.ns && Matches(sub, app) then [sub] else []
  }

  lemma {:induction false} FilterTwice(subs: seq<Subscription>, app: Application)
    ensures MatchingSubs(InNamespace(subs, app.ns), app) == AppSubs(subs, app)
  {
    if subs == [] {
    } else {
      var n := |subs| - 1;
      FilterTwice(subs[..n], app);
      var m := InNamespace(subs[..n], app.ns);
      if IsPlacementModel(subs[n].ref) && subs[n].ns == app.ns {
        assert (m + [subs[n]])[..|m|] == m;
      } else {
        assert m + [] == m;
      }
    }
  }

  /** The placement a subscription references, by kind from one list or the other. */
  function Resolve(sub: Subscription, placements: map<string, Placement>, rules: map<string, Placement>)
    : Option<Placement>
  {
    if !IsPlacementModel(sub.ref) then None
    else if sub.ref.value.kind == RULE_KIND then NamedIn(rules, sub.ref.value.name)
    else NamedIn(placements, sub.ref.value.name)
  }

  function UniqueId(p: Placement): string {
    p.name + "%" + p.ns + "%" + p.kind
  }

  function ResolvedAll(subs: seq<Subscription>, placements: map<string, Placement>, rules: map<string, Placement>)
    : (r: Option<seq<Placement>>)
    ensures r.Some? ==> |r.value| == |subs|
  {
    if subs == [] then Some([])
    else
      var front := ResolvedAll(subs[..|subs| - 1], placements, rules);
      var p := Resolve(subs[|subs| - 1], placements, rules);
      if front.Some? && p.Some? then Some(front.value + [p.value]) else None
  }

  lemma {:induction false} ResolvedAllLength(
    subs: seq<Subscription>, placements: map<string, Placement>, rules: map<string, Placement>)
    ensures var r := ResolvedAll(subs, placements, rules);
            && (r.Some? <==> forall k :: 0 <= k < |subs| ==> Resolve(subs[k], placements, rules).Some?)
            && (r.Some? ==> |r.value| == |subs|)
            && (r.Some? ==> forall k :: 0 <= k < |subs| ==> Resolve(subs[k], placements, rules) == Some(r.value[k]))
  {
    if subs == [] {
    } else {
      ResolvedAllLength(subs[..|subs| - 1], placements, rules);
    }
  }

  function Ids(placements: seq<Placement>): (r: seq<string>)
    ensures |r| == |placements|
  {
    if placements == [] then [] else Ids(placements[..|placements| - 1]) + [UniqueId(placements[|placements| - 1])]
  }

  /** The group of one id: its subscriptions in order, and what its first placement leads to. */
  function GroupOf(
    subs: seq<Subscription>, placements: seq<Placement>, id: string,
    decisions: seq<Decision>, resources: seq<DrResource>): Group
    requires |subs| == |placements| && id in Ids(placements)
  {
    MatchingNone(Ids(placements), placements, id);
    var p := Matching(Ids(placements), placements, id)[0];
    Group(Matching(Ids(placements), subs, id), p, DecisionFor(p, decisions), DrInfoFor(p, resources))
  }

  function GroupsInOrder(
    subs: seq<Subscription>, placements: seq<Placement>, order: seq<string>,
    decisions: seq<Decision>, resources: seq<DrResource>): (r: seq<Group>)
    requires |subs| == |placements| && forall id :: id in order ==> id in Ids(placements)
    ensures |r| == |order|
    ensures forall k :: 0 <= k < |order| ==> r[k] == GroupOf(subs, placements, order[k], decisions, resources)
  {
    seq(|order|, k requires 0 <= k < |order| => GroupOf(subs, placements, order[k], decisions, resources))
  }

  lemma DistinctWithin(ids: seq<string>)
    ensures forall id :: id in Distinct(ids) ==> id in ids
  {
    forall id | id in Distinct(ids)
      ensures id in ids
    {
      DistinctHas(ids, id);
    }
  }

  /** One group per distinct id of the subscriptions' placements, if all of them exist. */
  function GroupAll(
    subs: seq<Subscription>, resolved: Option<seq<Placement>>,
    decisions: seq<Decision>, resources: seq<DrResource>): Result<seq<Group>, Thrown>
    requires resolved.Some? ==> |resolved.value| == |subs|
  {
    if resolved.None? then Err(PlacementMissing)
    else
      DistinctWithin(Ids(resolved.value));
      Ok(GroupsInOrder(subs, resolved.value, Distinct(Ids(resolved.value)), decisions, resources))
  }

  lemma GroupAllIs(subs: seq<Subscription>, placements: seq<Placement>, values: seq<Group>,
                   decisions: seq<Decision>, resources: seq<DrResource>)
    requires |subs| == |placements| && |values| == |Distinct(Ids(placements))|
    requires forall k :: 0 <= k < |values| ==>
               (var id := Distinct(Ids(placements))[k];
                id in Ids(placements) && values[k] == GroupOf(subs, placements, id, decisions, resources))
    ensures Ok(values) == GroupAll(subs, Some(placements), decisions, resources)
  {
    DistinctWithin(Ids(placements));
    assert values == GroupsInOrder(subs, placements, Distinct(Ids(placements)), decisions, resources);
  }

  /** Adding one subscription creates the group of its id or extends it, and leaves the others. */
  lemma AddedGroups(
    subs: seq<Subscription>, placements: seq<Placement>, sub: Subscription, p: Placement,
    decisions: seq<Decision>, resources: seq<DrResource>)
    requires |subs| == |placements|
    ensures var subs', placements', id := subs + [sub], placements + [p], UniqueId(p);
            && Ids(placements') == Ids(placements) + [id]
            && Distinct(Ids(placements'))
               == (if id in Ids(placements) then Distinct(Ids(placements)) else Distinct(Ids(placements)) + [id])
            && (forall k :: k in Ids(placements) && k != id ==>
                  GroupOf(subs', placements', k, decisions, resources)
                  == GroupOf(subs, placements, k, decisions, resources))
            && GroupOf(subs', placements', id, decisions, resources)
               == if id in Ids(placements) then
                    var g := GroupOf(subs, placements, id, decisions, resources);
                    g.(subscriptions := g.subscriptions + [sub])
                  else Group([sub], p, DecisionFor(p, decisions), DrInfoFor(p, resources))
  {
    var ids, id := Ids(placements), UniqueId(p);
    assert (placements + [p])[..|placements|] == placements;
    DistinctSnoc(ids, id);
    forall k
      ensures Matching(ids + [id], subs + [sub], k) == Matching(ids, subs, k) + if id == k then [sub] else []
      ensures Matching(ids + [id], placements + [p], k) == Matching(ids, placements, k) + if id == k then [p] else []
    {
      MatchingSnoc(ids, subs, id, sub, k);
      MatchingSnoc(ids, placements, id, p, k);
    }
    MatchingNone(ids, subs, id);
    MatchingNone(ids, placements, id);
    forall k | k in ids && k != id
      ensures GroupOf(subs + [sub], placements + [p], k, decisions, resources)
           == GroupOf(subs, placements, k, decisions, resources)
    {
      MatchingNone(ids, placements, k);
    }
  }

  /** The object from unique ids to groups that the loop fills. */
  class GroupMap {
    var order: seq<string>
    var table: map<string, Group>

    constructor ()
      ensures order == [] && table == map[]
    {
      order, table := [], map[];
    }

    /** Holds the groups of these subscriptions. */
    ghost predicate Holds(subs: seq<Subscription>, placements: seq<Placement>,
                          decisions: seq<Decision>, resources: seq<DrResource>)
      requires |subs| == |placements|
      reads this
    {
      && order == Distinct(Ids(placements))
      && (forall id :: id in table <==> id in Ids(placements))
      && (forall id :: id in table ==> table[id] == GroupOf(subs, placements, id, decisions, resources))
    }

    method Add(sub: Subscription, placement: Placement, decisions: seq<Decision>, resources: seq<DrResource>,
               ghost subs: seq<Subscription>, ghost placements: seq<Placement>)
      requires |subs| == |placements| && Holds(subs, placements, decisions, resources)
      modifies this
      ensures Holds(subs + [sub], placements + [placement], decisions, resources)
    {
      var id := UniqueId(placement);
      AddedGroups(subs, placements, sub, placement, decisions, resources);
      if id !in table {
        var drInfo := FindDRResource(placement, resources);
        var group := Group([sub], placement, DecisionFor(placement, decisions), drInfo);
        order := order + [id];
        table := table[id := group];
      } else {
        table := table[id := table[id].(subscriptions := table[id].subscriptions + [sub])];
      }
    }

    /** `Object.values`: the properties in the order in which they were added. */
    method Values() returns (values: seq<Group>)
      requires forall id :: id in order ==> id in table
      ensures |values| == |order| && forall k :: 0 <= k < |order| ==> values[k] == table[order[k]]
    {
      values := [];
      for k := 0 to |order|
        invariant |values| == k && forall j :: 0 <= j < k ==> values[j] == table[order[j]]
      {
        values := values + [table[order[k]]];
      }
    }

    /** The groups in the order of their first subscriptions. */
    method Groups(ghost subs: seq<Subscription>, ghost placements: seq<Placement>,
                  ghost decisions: seq<Decision>, ghost resources: seq<DrResource>)
      returns (groups: seq<Group>)
      requires |subs| == |placements| && Holds(subs, placements, decisions, resources)
      ensures Ok(groups) == GroupAll(subs, Some(placements), decisions, resources)
    {
      DistinctWithin(Ids(placements));
      groups := Values();
      GroupAllIs(subs, placements, groups, decisions, resources);
    }
  }

  lemma ResolvedSnoc(
    subs: seq<Subscription>, sub: Subscription, placements: map<string, Placement>, rules: map<string, Placement>)
    ensures var front, p := ResolvedAll(subs, placements, rules), Resolve(sub, placements, rules);
            ResolvedAll(subs + [sub], placements, rules)
            == if front.Some? && p.Some? then Some(front.value + [p.value]) else None
  {
    assert (subs + [sub])[..|subs|] == subs;
  }

  lemma MatchingSubsSnoc(subs: seq<Subscription>, app: Application, i: nat)
    requires i < |subs|
    ensures var m := MatchingSubs(subs[..i], app);
            MatchingSubs(subs[..i + 1], app)
            == if IsPlacementModel(subs[i].ref) && Matches(subs[i], app) then m + [subs[i]] else m
  {
    assert subs[..i + 1][..i] == subs[..i];
  }

  lemma {:induction false} FailsFromThere(
    subs: seq<Subscription>, app: Application,
    placements: map<string, Placement>, rules: map<string, Placement>, i: nat)
    requires i <= |subs| && ResolvedAll(MatchingSubs(subs[..i], app), placements, rules).None?
    ensures ResolvedAll(MatchingSubs(subs, app), placements, rules).None?
  {
    if i == |subs| {
      assert subs[..i] == subs;
    } else {
      var front := subs[..|subs| - 1];
      assert front[..i] == subs[..i];
      FailsFromThere(front, app, placements, rules, i);
      var m, sub := MatchingSubs(front, app), subs[|subs| - 1];
      if IsPlacementModel(sub.ref) && Matches(sub, app) {
        assert (m + [sub])[..|m|] == m;
        assert MatchingSubs(subs, app) == m + [sub];
      } else {
        assert m + [] == m;
      }
    }
  }

  /** The subscriptions reference no placement by a name that any object has a property of. */
  predicate OrdinaryRefs(subs: seq<Subscription>) {
    forall sub :: sub in subs && sub.ref.Some? ==> !Inherited(sub.ref.value.name)
  }

  method GenerateSubscriptionGroupInfo(
    app: Application, subs: seq<Subscription>, placements: map<string, Placement>, rules: map<string, Placement>,
    decisions: seq<Decision>, resources: seq<DrResource>)
    returns (r: Result<seq<Group>, Thrown>)
    requires OrdinaryRefs(subs)
    ensures var matched := MatchingSubs(subs, app);
            r == GroupAll(matched, ResolvedAll(matched, placements, rules), decisions, resources)
  {
    var groups := new GroupMap();
    ghost var matched, resolved := [], [];
    for i := 0 to |subs|
      invariant matched == MatchingSubs(subs[..i], app)
      invariant ResolvedAll(matched, placements, rules) == Some(resolved) && |matched| == |resolved|
      invariant groups.Holds(matched, resolved, decisions, resources)
    {
      MatchingSubsSnoc(subs, app, i);
      var sub := subs[i];
      if IsPlacementModel(sub.ref) && Matches(sub, app) {
        var placement := Resolve(sub, placements, rules);
        ResolvedSnoc(matched, sub, placements, rules);
        if placement.None? {
          FailsFromThere(subs, app, placements, rules, i + 1);
          return Err(PlacementMissing);
        }
        groups.Add(sub, placement.value, decisions, resources, matched, resolved);
        matched, resolved := matched + [sub], resolved + [placement.value];
      }
    }
    assert subs[..|subs|] == subs;
    var values := groups.Groups(matched, resolved, decisions, resources);
    r := Ok(values);
  }

  // ----- the hook -----

  datatype Watched = Watched(
    apps: seq<Application>, subs: seq<Subscription>, placements: seq<Placement>, rules: seq<Placement>,
    decisions: seq<Decision>, resources: seq<DrResource>)

  /** None of the names that serve as keys of plain objects is special there. */
  predicate OrdinaryKeys(w: Watched) {
    && (forall app :: app in w.apps ==> Ordinary(app.ns))
    && (forall sub :: sub in w.subs ==> !Inherited(sub.ns)) && OrdinaryRefs(w.subs)
    && (forall p :: p in w.placements ==> !Inherited(p.ns))
    && (forall p :: p in w.rules ==> !Inherited(p.ns))
    && (forall d :: d in w.decisions ==> !Inherited(d.ns))
  }

  /** The placement a subscription references, by scanning the lists of its namespace. */
  function ResolveByScan(sub: Subscription, w: Watched): Option<Placement> {
    if !IsPlacementModel(sub.ref) then None
    else LastPlacement(if sub.ref.value.kind == RULE_KIND then w.rules else w.placements, sub.ns, sub.ref.value.name)
  }

  function ResolvedByScan(subs: seq<Subscription>, w: Watched): (r: Option<seq<Placement>>)
    ensures r.Some? ==> |r.value| == |subs|
  {
    if subs == [] then Some([])
    else
      var front, p := ResolvedByScan(subs[..|subs| - 1], w), ResolveByScan(subs[|subs| - 1], w);
      if front.Some? && p.Some? then Some(front.value + [p.value]) else None
  }

  /** The groups of an application, by scanning all lists. */
  function NaiveGroups(app: Application, w: Watched): Result<seq<Group>, Thrown> {
    var subs := AppSubs(w.subs, app);
    GroupAll(subs, ResolvedByScan(subs, w), w.decisions, w.resources)
  }

  /** The same over the indexes. */
  function IndexedGroups(app: Application, w: Watched): Result<seq<Group>, Thrown> {
    var matched := MatchingSubs(ListAt(NamespaceWiseSubscriptions(w.subs), app.ns), app);
    GroupAll(matched,
             ResolvedAll(matched, NamesIn(NamespaceWisePlacements(w.placements), app.ns),
                         NamesIn(NamespaceWisePlacements(w.rules), app.ns)),
             ListAt(NamespaceWiseDecisions(w.decisions), app.ns), w.resources)
  }

  lemma {:induction false} LastPlacementIn(placements: seq<Placement>, ns: string, name: string)
    ensures var p := LastPlacement(placements, ns, name);
            && (p.Some? ==> p.value in placements && p.value.ns == ns && p.value.name == name)
            && (p.None? ==> forall q :: q in placements ==> q.ns != ns || q.name != name)
  {
    if placements == [] {
    } else {
      var n := |placements| - 1;
      LastPlacementIn(placements[..n], ns, name);
      assert placements == placements[..n] + [placements[n]];
    }
  }

  lemma ResolveIsScan(sub: Subscription, w: Watched)
    requires !Inherited(sub.ns) && (sub.ref.Some? ==> !Inherited(sub.ref.value.name))
    ensures Resolve(sub, NamesIn(NamespaceWisePlacements(w.placements), sub.ns),
                    NamesIn(NamespaceWisePlacements(w.rules), sub.ns))
         == ResolveByScan(sub, w)
    ensures ResolveByScan(sub, w).Some? ==> ResolveByScan(sub, w).value.ns == sub.ns
  {
    if IsPlacementModel(sub.ref) {
      var ns, name := sub.ns, sub.ref.value.name;
      PlacementIndexIsScan(w.placements, ns, name);
      PlacementIndexIsScan(w.rules, ns, name);
      LastPlacementIn(w.placements, ns, name);
      LastPlacementIn(w.rules, ns, name);
    }
  }

  lemma {:induction false} ResolvedIsScan(subs: seq<Subscription>, ns: string, w: Watched)
    requires !Inherited(ns) && OrdinaryRefs(subs) && forall sub :: sub in subs ==> sub.ns == ns
    ensures ResolvedAll(subs, NamesIn(NamespaceWisePlacements(w.placements), ns),
                        NamesIn(NamespaceWisePlacements(w.rules), ns))
         == ResolvedByScan(subs, w)
    ensures ResolvedByScan(subs, w).Some? ==> forall p :: p in ResolvedByScan(subs, w).value ==> p.ns == ns
  {
    if subs == [] {
    } else {
      var n := |subs| - 1;
      assert forall sub :: sub in subs[..n] ==> sub in subs;
      ResolvedIsScan(subs[..n], ns, w);
      ResolveIsScan(subs[n], w);
    }
  }

  lemma {:induction false} AppSubsSpec(subs: seq<Subscription>, app: Application, sub: Subscription)
    ensures sub in AppSubs(subs, app)
       <==> sub in subs && IsPlacementModel(sub.ref) && sub.ns == app.ns && Matches(sub, app)
  {
    if subs == [] {
    } else {
      var n := |subs| - 1;
      AppSubsSpec(subs[..n], app, sub);
      assert subs == subs[..n] + [subs[n]];
    }
  }

  lemma {:induction false} MatchingIn<T>(keys: seq<string>, items: seq<T>, k: string, x: T)
    requires |keys| == |items| && x in Matching(keys, items, k)
    ensures x in items
  {
    if keys != [] && x in Matching(keys[..|keys| - 1], items[..|keys| - 1], k) {
      MatchingIn(keys[..|keys| - 1], items[..|keys| - 1], k, x);
    }
  }

  /** For placements of one namespace, that namespace's decisions are as good as all. */
  lemma DecisionsOfNamespace(subs: seq<Subscription>, placements: seq<Placement>, ns: string, w: Watched)
    requires |subs| == |placements| && forall p :: p in placements ==> p.ns == ns
    ensures GroupAll(subs, Some(placements), ListAt(NamespaceWiseDecisions(w.decisions), ns), w.resources)
         == GroupAll(subs, Some(placements), w.decisions, w.resources)
  {
    var decisions := ListAt(NamespaceWiseDecisions(w.decisions), ns);
    IndexIsNaive(DecisionKeys(w.decisions), w.decisions);
    var ids := Ids(placements);
    DistinctWithin(ids);
    forall id | id in ids
      ensures GroupOf(subs, placements, id, decisions, w.resources)
           == GroupOf(subs, placements, id, w.decisions, w.resources)
    {
      MatchingNone(ids, placements, id);
      var p := Matching(ids, placements, id)[0];
      MatchingIn(ids, placements, id, p);
      DecisionIndexIsScan(p, w.decisions);
    }
    assert GroupsInOrder(subs, placements, Distinct(ids), decisions, w.resources)
        == GroupsInOrder(subs, placements, Distinct(ids), w.decisions, w.resources);
  }

  /** The indexed grouping is the naive one. */
  lemma IndexedIsNaive(app: Application, w: Watched)
    requires OrdinaryKeys(w) && Ordinary(app.ns)
    ensures IndexedGroups(app, w) == NaiveGroups(app, w)
  {
    SubscriptionIndexIsScan(w.subs, app.ns);
    FilterTwice(w.subs, app);
    var subs := AppSubs(w.subs, app);
    forall sub | sub in subs
      ensures sub.ns == app.ns && sub in w.subs
    {
      AppSubsSpec(w.subs, app, sub);
    }
    ResolvedIsScan(subs, app.ns, w);
    var resolved := ResolvedByScan(subs, w);
    if resolved.Some? {
      DecisionsOfNamespace(subs, resolved.value, app.ns, w);
    }
  }

  /** The result for these applications, one after another; an exception ends it all. */
  function InfosOf(apps: seq<Application>, w: Watched): Result<seq<AppInfo>, Thrown> {
    if apps == [] then Ok([])
    else
      var front := InfosOf(apps[..|apps| - 1], w);
      var groups := NaiveGroups(apps[|apps| - 1], w);
      if front.Err? || groups.Err? then Err(PlacementMissing)
      else Ok(front.value + [AppInfo(apps[|apps| - 1], groups.value)])
  }

  /** The qualifying applications, namespace by namespace. */
  function AppOrder(apps: seq<Application>): seq<Application> {
    var q := QualifyingApps(apps);
    Regrouped(AppKeys(q), q, Distinct(AppKeys(q)))
  }

  lemma {:induction false} InfosFail(apps: seq<Application>, more: seq<Application>, w: Watched)
    requires InfosOf(apps, w).Err?
    ensures InfosOf(apps + more, w).Err?
  {
    if more == [] {
      assert apps + more == apps;
    } else {
      var n := |more| - 1;
      assert (apps + more)[..|apps + more| - 1] == apps + more[..n];
      InfosFail(apps, more[..n], w);
    }
  }

  /** The indexes, built once over the lists that the hook watches. */
  datatype Indexes = Indexes(
    subscriptions: Index<Subscription>, placements: PlacementIndex, rules: PlacementIndex, decisions: Index<Decision>)

  function IndexesOf(w: Watched): Indexes {
    Indexes(NamespaceWiseSubscriptions(w.subs), NamespaceWisePlacements(w.placements),
            NamespaceWisePlacements(w.rules), NamespaceWiseDecisions(w.decisions))
  }

  method GroupsFor(app: Application, indexes: Indexes, resources: seq<DrResource>, ghost w: Watched)
    returns (groups: Result<seq<Group>, Thrown>)
    requires indexes == IndexesOf(w) && resources == w.resources
    requires OrdinaryKeys(w) && Ordinary(app.ns)
    ensures groups == NaiveGroups(app, w)
  {
    SubscriptionIndexIsScan(w.subs, app.ns);
    InNamespaceIn(w.subs, app.ns);
    groups := GenerateSubscriptionGroupInfo(
      app, ListAt(indexes.subscriptions, app.ns), NamesIn(indexes.placements, app.ns), NamesIn(indexes.rules, app.ns),
      ListAt(indexes.decisions, app.ns), resources);
    IndexedIsNaive(app, w);
    assert groups == IndexedGroups(app, w);
  }

  lemma InfosSnoc(apps: seq<Application>, app: Application, w: Watched)
    ensures var front, groups := InfosOf(apps, w), NaiveGroups(app, w);
            InfosOf(apps + [app], w)
            == if front.Err? || groups.Err? then Err(PlacementMissing)
               else Ok(front.value + [AppInfo(app, groups.value)])
  {
    assert (apps + [app])[..|apps|] == apps;
  }

  lemma NextDone(before: seq<Application>, apps: seq<Application>, i: nat)
    requires i < |apps|
    ensures before + apps[..i] + [apps[i]] == before + apps[..i + 1]
  {
  }

  lemma {:induction false} InfosErr(apps: seq<Application>, w: Watched)
    ensures InfosOf(apps, w).Err? <==> exists app :: app in apps && NaiveGroups(app, w).Err?
    ensures InfosOf(apps, w).Err? ==> InfosOf(apps, w) == Err(PlacementMissing)
    ensures InfosOf(apps, w).Ok? ==> |InfosOf(apps, w).value| == |apps|
    ensures InfosOf(apps, w).Ok? ==> forall k :: 0 <= k < |apps| ==>
              NaiveGroups(apps[k], w).Ok?
              && InfosOf(apps, w).value[k] == AppInfo(apps[k], NaiveGroups(apps[k], w).value)
  {
    if apps == [] {
    } else {
      var n := |apps| - 1;
      InfosErr(apps[..n], w);
      assert apps == apps[..n] + [apps[n]];
    }
  }

  lemma RestFails(before: seq<Application>, apps: seq<Application>, i: nat, w: Watched)
    requires i <= |apps| && InfosOf(before + apps[..i], w).Err?
    ensures InfosOf(before + apps, w) == Err(PlacementMissing)
  {
    assert before + apps == (before + apps[..i]) + apps[i..];
    InfosFail(before + apps[..i], apps[i..], w);
    InfosErr(before + apps, w);
  }

  /** Appends the result for the applications of one namespace. */
  method AppendNamespace(
    apps: seq<Application>, indexes: Indexes, resources: seq<DrResource>, infos: seq<AppInfo>,
    ghost before: seq<Application>, ghost w: Watched)
    returns (r: Result<seq<AppInfo>, Thrown>)
    requires indexes == IndexesOf(w) && resources == w.resources && InfosOf(before, w) == Ok(infos)
    requires OrdinaryKeys(w) && forall app :: app in apps ==> Ordinary(app.ns)
    ensures r == InfosOf(before + apps, w)
  {
    r := Ok(infos);
    ghost var done := before;
    assert before + apps[..0] == before;
    var i := 0;
    while i < |apps|
      invariant i <= |apps| && done == before + apps[..i]
      invariant r.Ok? && InfosOf(done, w) == r
    {
      InfosSnoc(done, apps[i], w);
      NextDone(before, apps, i);
      var groups := GroupsFor(apps[i], indexes, resources, w);
      done := done + [apps[i]];
      i := i + 1;
      if groups.Err? {
        RestFails(before, apps, i, w);
        return Err(PlacementMissing);
      }
      r := Ok(r.value + [AppInfo(apps[i - 1], groups.value)]);
    }
    assert apps[..|apps|] == apps;
  }

  lemma ApplicationIndexIsNaive(apps: seq<Application>)
    ensures var q := QualifyingApps(apps);
            var keys, index := AppKeys(q), NamespaceWiseApplications(apps);
            index.order == Distinct(keys) && forall ns :: ListAt(index, ns) == Matching(keys, q, ns)
  {
    ApplicationIndexIsGrouping(apps);
    IndexIsNaive(AppKeys(QualifyingApps(apps)), QualifyingApps(apps));
  }

  lemma {:induction false} QualifyingIn(apps: seq<Application>)
    ensures forall app :: app in QualifyingApps(apps) <==> app in apps && IsSubscriptionApp(app)
  {
    if apps == [] {
    } else {
      var n := |apps| - 1;
      QualifyingIn(apps[..n]);
      assert apps == apps[..n] + [apps[n]];
    }
  }

  lemma ListedApps(apps: seq<Application>, ns: string)
    ensures forall app :: app in ListAt(NamespaceWiseApplications(apps), ns) ==> app in apps
  {
    var q := QualifyingApps(apps);
    ApplicationIndexIsNaive(apps);
    QualifyingIn(apps);
    forall app | app in Matching(AppKeys(q), q, ns)
      ensures app in apps
    {
      MatchingIn(AppKeys(q), q, ns, app);
    }
  }

  lemma OtherNamespacesFail(keys: seq<string>, q: seq<Application>, order: seq<string>, i: nat, w: Watched)
    requires |keys| == |q| && i <= |order| && InfosOf(Regrouped(keys, q, order[..i]), w).Err?
    ensures InfosOf(Regrouped(keys, q, order), w) == Err(PlacementMissing)
  {
    assert order[..i] + order[i..] == order;
    RegroupedConcat(keys, q, order[..i], order[i..]);
    InfosFail(Regrouped(keys, q, order[..i]), Regrouped(keys, q, order[i..]), w);
    InfosErr(Regrouped(keys, q, order), w);
  }

  lemma RegroupedNext<T>(keys: seq<string>, items: seq<T>, order: seq<string>, i: nat)
    requires |keys| == |items| && i < |order|
    ensures Regrouped(keys, items, order[..i + 1])
         == Regrouped(keys, items, order[..i]) + Matching(keys, items, order[i])
  {
    assert order[..i + 1] == order[..i] + [order[i]];
    RegroupedOrderSnoc(keys, items, order[..i], order[i]);
  }

  /** The qualifying applications of the first `i` namespaces. */
  function AppsUpTo(apps: seq<Application>, i: nat): seq<Application>
    requires i <= |Distinct(AppKeys(QualifyingApps(apps)))|
  {
    var q := QualifyingApps(apps);
    Regrouped(AppKeys(q), q, Distinct(AppKeys(q))[..i])
  }

  lemma AppsUpToNext(apps: seq<Application>, i: nat)
    requires i < |Distinct(AppKeys(QualifyingApps(apps)))|
    ensures var index := NamespaceWiseApplications(apps);
            && index.order == Distinct(AppKeys(QualifyingApps(apps)))
            && AppsUpTo(apps, i + 1) == AppsUpTo(apps, i) + ListAt(index, index.order[i])
  {
    var q := QualifyingApps(apps);
    ApplicationIndexIsNaive(apps);
    RegroupedNext(AppKeys(q), q, Distinct(AppKeys(q)), i);
  }

  lemma AppsUpToEnds(apps: seq<Application>)
    ensures AppsUpTo(apps, 0) == []
    ensures AppsUpTo(apps, |Distinct(AppKeys(QualifyingApps(apps)))|) == AppOrder(apps)
  {
    var order := Distinct(AppKeys(QualifyingApps(apps)));
    assert order[..0] == [] && order[..|order|] == order;
  }

  lemma OtherAppsFail(apps: seq<Application>, i: nat, w: Watched)
    requires i <= |Distinct(AppKeys(QualifyingApps(apps)))| && InfosOf(AppsUpTo(apps, i), w).Err?
    ensures InfosOf(AppOrder(apps), w) == Err(PlacementMissing)
  {
    var q := QualifyingApps(apps);
    OtherNamespacesFail(AppKeys(q), q, Distinct(AppKeys(q)), i, w);
  }

  /** Namespace by namespace over the index of applications, with all lookups through indexes:
      the result is the one that scans all lists for each qualifying application. */
  method SubscriptionResources(w: Watched) returns (r: Result<seq<AppInfo>, Thrown>)
    requires OrdinaryKeys(w)
    ensures r == InfosOf(AppOrder(w.apps), w)
  {
    var index := NamespaceWiseApplications(w.apps);
    var indexes := IndexesOf(w);
    ApplicationIndexIsNaive(w.apps);
    AppsUpToEnds(w.apps);
    var order := index.order;
    r := Ok([]);
    var i := 0;
    while i < |order|
      invariant i <= |order|
      invariant r.Ok? && InfosOf(AppsUpTo(w.apps, i), w) == r
    {
      var apps := ListAt(index, order[i]);
      ListedApps(w.apps, order[i]);
      AppsUpToNext(w.apps, i);
      r := AppendNamespace(apps, indexes, w.resources, r.value, AppsUpTo(w.apps, i), w);
      i := i + 1;
      if r.Err? {
        OtherAppsFail(w.apps, i, w);
        return Err(PlacementMissing);
      }
    }
  }

  // ----- what the result says -----

  /** Every qualifying application appears exactly as often as it is listed, namespaces together. */
  lemma AppsAppearOnce(w: Watched)
    ensures multiset(AppOrder(w.apps)) == multiset(QualifyingApps(w.apps))
  {
    GroupsPartition(AppKeys(QualifyingApps(w.apps)), QualifyingApps(w.apps));
  }

  lemma {:induction false} ResolvedByScanSpec(subs: seq<Subscription>, w: Watched)
    ensures ResolvedByScan(subs, w).Some? <==> forall sub :: sub in subs ==> ResolveByScan(sub, w).Some?
    ensures ResolvedByScan(subs, w).Some? ==> forall k :: 0 <= k < |subs| ==>
              ResolveByScan(subs[k], w) == Some(ResolvedByScan(subs, w).value[k])
  {
    if subs == [] {
    } else {
      var n := |subs| - 1;
      ResolvedByScanSpec(subs[..n], w);
      assert subs == subs[..n] + [subs[n]];
    }
  }

  /** The application matches, in its namespace, a subscription whose placement or placement rule
      does not exist there. */
  ghost predicate LacksPlacement(app: Application, w: Watched) {
    exists sub :: sub in AppSubs(w.subs, app) && ResolveByScan(sub, w).None?
  }

  lemma GroupsErrIff(app: Application, w: Watched)
    ensures NaiveGroups(app, w).Err? <==> LacksPlacement(app, w)
  {
    ResolvedByScanSpec(AppSubs(w.subs, app), w);
  }

  /** The hook throws exactly if some qualifying application lacks a placement. */
  lemma ThrowsIff(w: Watched)
    ensures InfosOf(AppOrder(w.apps), w).Err? <==> exists app :: app in QualifyingApps(w.apps) && LacksPlacement(app, w)
  {
    InfosErr(AppOrder(w.apps), w);
    AppsAppearOnce(w);
    forall app
      ensures app in AppOrder(w.apps) <==> app in QualifyingApps(w.apps)
      ensures NaiveGroups(app, w).Err? <==> LacksPlacement(app, w)
    {
      assert app in multiset(AppOrder(w.apps)) <==> app in multiset(QualifyingApps(w.apps));
      GroupsErrIff(app, w);
    }
  }

  lemma NotSpecial()
    ensures Ordinary("n") && !Inherited("p")
  {
    assert forall key :: key in INHERITED ==> |key| > 1;
    assert !IsDigit("n"[0]);
  }

  /** One application with one subscription. */
  ghost predicate OneSubscription(w: Watched, app: Application, sub: Subscription) {
    && app == Application("a", "n", [("apps.open-cluster-management.io", "Subscription")], Some([]))
    && sub == Subscription("s", "n", map[], Some(PlacementRef(PLACEMENT_KIND, "p")))
    && w == Watched([app], [sub], [], [], [], [])
  }

  lemma OneIsOrdinary(w: Watched, app: Application, sub: Subscription)
    requires OneSubscription(w, app, sub)
    ensures OrdinaryKeys(w) && WellTyped(w)
  {
    NotSpecial();
  }

  lemma OneLacksPlacement(w: Watched, app: Application, sub: Subscription)
    requires OneSubscription(w, app, sub)
    ensures app in QualifyingApps(w.apps) && LacksPlacement(app, w)
  {
    QualifyingIn(w.apps);
    assert app.componentKinds[0] == ("apps.open-cluster-management.io", "Subscription");
    assert w.apps[0] == app && w.subs[0] == sub;
    AppSubsSpec(w.subs, app, sub);
    assert Matches(sub, app) && ResolveByScan(sub, w).None?;
  }

  /** One application with one subscription, whose placement has been deleted. */
  lemma GroupingThrows() returns (w: Watched)
    ensures OrdinaryKeys(w) && WellTyped(w)
    ensures InfosOf(AppOrder(w.apps), w) == Err(PlacementMissing)
  {
    var app := Application("a", "n", [("apps.open-cluster-management.io", "Subscription")], Some([]));
    var sub := Subscription("s", "n", map[], Some(PlacementRef(PLACEMENT_KIND, "p")));
    w := Watched([app], [sub], [], [], [], []);
    OneIsOrdinary(w, app, sub);
    OneLacksPlacement(w, app, sub);
    ThrowsIff(w);
    InfosErr(AppOrder(w.apps), w);
  }

  predicate PercentFree(p: Placement) {
    '%' !in p.name && '%' !in p.ns && '%' !in p.kind
  }

  lemma UniqueIdSplits(p: Placement)
    requires PercentFree(p)
    ensures Split(UniqueId(p), '%') == [p.name, p.ns, p.kind]
  {
    SplitWithout(p.kind, '%');
    SplitAfter(p.ns, '%', p.kind);
    SplitAfter(p.name, '%', p.ns + ['%'] + p.kind);
    assert UniqueId(p) == p.name + ['%'] + (p.ns + ['%'] + p.kind);
  }

  lemma UniqueIdInjective(p: Placement, q: Placement)
    requires PercentFree(p) && PercentFree(q)
    ensures UniqueId(p) == UniqueId(q) <==> p.name == q.name && p.ns == q.ns && p.kind == q.kind
  {
    UniqueIdSplits(p);
    UniqueIdSplits(q);
  }

  /** Each list holds its own kind, and names have no `%`, as the API server guarantees. */
  ghost predicate WellTyped(w: Watched) {
    && (forall p :: p in w.rules ==> p.kind == RULE_KIND && PercentFree(p))
    && (forall p :: p in w.placements ==> p.kind == PLACEMENT_KIND && PercentFree(p))
  }

  lemma SameIdSamePlacement(a: Subscription, b: Subscription, w: Watched)
    requires WellTyped(w) && ResolveByScan(a, w).Some? && ResolveByScan(b, w).Some?
    ensures UniqueId(ResolveByScan(a, w).value) == UniqueId(ResolveByScan(b, w).value)
       <==> ResolveByScan(a, w) == ResolveByScan(b, w)
  {
    LastPlacementIn(if a.ref.value.kind == RULE_KIND then w.rules else w.placements, a.ns, a.ref.value.name);
    LastPlacementIn(if b.ref.value.kind == RULE_KIND then w.rules else w.placements, b.ns, b.ref.value.name);
    UniqueIdInjective(ResolveByScan(a, w).value, ResolveByScan(b, w).value);
  }

  /** The subscriptions of one placement, in order. */
  function OfPlacement(subs: seq<Subscription>, w: Watched, p: Placement): seq<Subscription> {
    if subs == [] then []
    else
      OfPlacement(subs[..|subs| - 1], w, p)
      + if ResolveByScan(subs[|subs| - 1], w) == Some(p) then [subs[|subs| - 1]] else []
  }

  lemma {:induction false} MatchingIsOfPlacement(
    subs: seq<Subscription>, placements: seq<Placement>, w: Watched, sub: Subscription)
    requires WellTyped(w) && ResolvedByScan(subs, w) == Some(placements) && ResolveByScan(sub, w).Some?
    ensures var p := ResolveByScan(sub, w).value;
            Matching(Ids(placements), subs, UniqueId(p)) == OfPlacement(subs, w, p)
  {
    if subs == [] {
    } else {
      var n := |subs| - 1;
      MatchingIsOfPlacement(subs[..n], placements[..n], w, sub);
      assert Ids(placements)[..n] == Ids(placements[..n]);
      SameIdSamePlacement(subs[n], sub, w);
    }
  }

  function AllSubscriptions(groups: seq<Group>): seq<Subscription> {
    if groups == [] then [] else groups[0].subscriptions + AllSubscriptions(groups[1..])
  }

  lemma {:induction false} AllIsRegrouped(
    subs: seq<Subscription>, placements: seq<Placement>, order: seq<string>,
    decisions: seq<Decision>, resources: seq<DrResource>)
    requires |subs| == |placements| && forall id :: id in order ==> id in Ids(placements)
    ensures AllSubscriptions(GroupsInOrder(subs, placements, order, decisions, resources))
         == Regrouped(Ids(placements), subs, order)
  {
    if order == [] {
    } else {
      assert forall id :: id in order[1..] ==> id in order;
      AllIsRegrouped(subs, placements, order[1..], decisions, resources);
      var groups := GroupsInOrder(subs, placements, order, decisions, resources);
      var rest := GroupsInOrder(subs, placements, order[1..], decisions, resources);
      forall k | 0 <= k < |rest|
        ensures groups[1..][k] == rest[k]
      {
        assert order[1..][k] == order[k + 1];
      }
      assert groups[1..] == rest;
    }
  }

  lemma {:induction false} IdsAt(placements: seq<Placement>, k: nat)
    requires k < |placements|
    ensures Ids(placements)[k] == UniqueId(placements[k])
  {
    if k == |placements| - 1 {
    } else {
      IdsAt(placements[..|placements| - 1], k);
    }
  }

  lemma {:induction false} MatchingHas<T>(keys: seq<string>, items: seq<T>, k: string, x: T) returns (j: nat)
    requires |keys| == |items| && x in Matching(keys, items, k)
    ensures j < |keys| && keys[j] == k && items[j] == x
  {
    var n := |keys| - 1;
    if keys[n] == k && items[n] == x {
      j := n;
    } else {
      j := MatchingHas(keys[..n], items[..n], k, x);
    }
  }

  /** The placement of a group is that of one of the subscriptions. */
  lemma GroupPlacement(subs: seq<Subscription>, placements: seq<Placement>, w: Watched, id: string)
    returns (sub: Subscription)
    requires ResolvedByScan(subs, w) == Some(placements) && id in Ids(placements)
    ensures var g := GroupOf(subs, placements, id, w.decisions, w.resources);
            sub in subs && ResolveByScan(sub, w) == Some(g.placement) && UniqueId(g.placement) == id
  {
    MatchingNone(Ids(placements), placements, id);
    var p := Matching(Ids(placements), placements, id)[0];
    var j := MatchingHas(Ids(placements), placements, id, p);
    ResolvedByScanSpec(subs, w);
    IdsAt(placements, j);
    sub := subs[j];
  }

  /** A group holds, in order, exactly the subscriptions of its placement. */
  ghost predicate Exact(g: Group, subs: seq<Subscription>, w: Watched) {
    && g.subscriptions == OfPlacement(subs, w, g.placement) && g.subscriptions != []
    && g.decision == DecisionFor(g.placement, w.decisions)
    && g.drInfo == DrInfoFor(g.placement, w.resources)
  }

  lemma GroupsAreExact(subs: seq<Subscription>, w: Watched)
    requires WellTyped(w) && ResolvedByScan(subs, w).Some?
    ensures var placements := ResolvedByScan(subs, w).value;
            forall id :: id in Ids(placements) ==>
              Exact(GroupOf(subs, placements, id, w.decisions, w.resources), subs, w)
  {
    var placements := ResolvedByScan(subs, w).value;
    forall id | id in Ids(placements)
      ensures Exact(GroupOf(subs, placements, id, w.decisions, w.resources), subs, w)
    {
      var sub := GroupPlacement(subs, placements, w, id);
      MatchingIsOfPlacement(subs, placements, w, sub);
      MatchingNone(Ids(placements), subs, id);
    }
  }

  /** One group per placement; together they hold each matching subscription as often as it is
      listed. */
  lemma GroupsPartitionSubscriptions(app: Application, w: Watched)
    requires WellTyped(w) && NaiveGroups(app, w).Ok?
    ensures var groups, subs := NaiveGroups(app, w).value, AppSubs(w.subs, app);
            && (forall g :: g in groups ==> Exact(g, subs, w))
            && (forall i, j :: 0 <= i < j < |groups| ==> groups[i].placement != groups[j].placement)
            && multiset(AllSubscriptions(groups)) == multiset(subs)
  {
    var groups, subs := NaiveGroups(app, w).value, AppSubs(w.subs, app);
    var placements := ResolvedByScan(subs, w).value;
    var ids := Ids(placements);
    var order := Distinct(ids);
    DistinctWithin(ids);
    DistinctNoDup(ids);
    GroupsAreExact(subs, w);
    forall k | 0 <= k < |groups|
      ensures Exact(groups[k], subs, w) && UniqueId(groups[k].placement) == order[k]
    {
      var sub := GroupPlacement(subs, placements, w, order[k]);
    }
    AllIsRegrouped(subs, placements, order, w.decisions, w.resources);
    GroupsPartition(ids, subs);
  }

  // ----- the same in terms of indices and fields -----

  /** The first DRPC that references the placement by kind and name, in its namespace. */
  lemma {:induction false} FirstProtectingAt(drpcs: seq<Drpc>, p: Placement) returns (j: nat)
    ensures j <= |drpcs| && FirstProtecting(drpcs, p) == if j < |drpcs| then Some(drpcs[j]) else None
    ensures forall i :: 0 <= i < j ==>
              !(drpcs[i].ref.Some? && drpcs[i].ref.value.kind == p.kind && drpcs[i].ref.value.name == p.name
                && drpcs[i].ns == p.ns)
    ensures j < |drpcs| ==>
              drpcs[j].ref.Some? && drpcs[j].ref.value.kind == p.kind && drpcs[j].ref.value.name == p.name
              && drpcs[j].ns == p.ns
  {
    if drpcs == [] || Protects(drpcs[0], p) {
      j := 0;
    } else {
      j := FirstProtectingAt(drpcs[1..], p);
      forall i | 0 < i <= j
        ensures drpcs[i - 1 + 1..] == drpcs[1..][i - 1..]
        ensures i < |drpcs| ==> drpcs[i] == drpcs[1..][i - 1]
      {
      }
      j := j + 1;
    }
  }

  /** The info a group is given: from the last resource that lists a DRPC which references the
      placement by kind and name, in its namespace, and with the first such DRPC; none if no
      resource does. */
  lemma {:induction false} DrInfoIs(p: Placement, resources: seq<DrResource>) returns (i: int, j: nat)
    ensures -1 <= i < |resources|
    ensures forall r, d :: i < r < |resources| && d in resources[r].drpcs ==>
              !(d.ref.Some? && d.ref.value.kind == p.kind && d.ref.value.name == p.name && d.ns == p.ns)
    ensures i == -1 ==> DrInfoFor(p, resources).None?
    ensures i >= 0 ==>
              var drpcs := resources[i].drpcs;
              && j < |drpcs| && drpcs[j].ref.Some? && drpcs[j].ref.value.kind == p.kind
              && drpcs[j].ref.value.name == p.name && drpcs[j].ns == p.ns
              && (forall k :: 0 <= k < j ==>
                    !(drpcs[k].ref.Some? && drpcs[k].ref.value.kind == p.kind && drpcs[k].ref.value.name == p.name
                      && drpcs[k].ns == p.ns))
              && DrInfoFor(p, resources) == Some(DrInfo(resources[i].policy, resources[i].clusters, drpcs[j]))
  {
    if resources == [] {
      i, j := -1, 0;
    } else {
      var n := |resources| - 1;
      j := FirstProtectingAt(resources[n].drpcs, p);
      if j < |resources[n].drpcs| {
        i := n;
      } else {
        i, j := DrInfoIs(p, resources[..n]);
      }
    }
  }

  /** The first decision that carries the placement's name under the label of its kind, in its namespace. */
  lemma {:induction false} DecisionIs(p: Placement, decisions: seq<Decision>) returns (j: nat)
    ensures j <= |decisions| && DecisionFor(p, decisions) == if j < |decisions| then Some(decisions[j]) else None
    ensures var kindLabel := if p.kind == "Placement" then "placement" else "placementrule";
            var key := "cluster.open-cluster-management.io/" + kindLabel;
            && (forall i :: 0 <= i < j ==>
                  !((if key in decisions[i].labels then decisions[i].labels[key] else "") == p.name
                    && decisions[i].ns == p.ns))
            && (j < |decisions| ==>
                  (if key in decisions[j].labels then decisions[j].labels[key] else "") == p.name
                  && decisions[j].ns == p.ns)
  {
    LabelKeys();
    if decisions == [] {
      j := 0;
    } else {
      var n := |decisions| - 1;
      j := DecisionIs(p, decisions[..n]);
      if j == n && !Decides(decisions[n], p) {
        j := n + 1;
      }
    }
  }

  lemma LabelKeys()
    ensures "cluster.open-cluster-management.io/" + "placement" == PLACEMENT_LABEL
    ensures "cluster.open-cluster-management.io/" + "placementrule" == RULE_LABEL
  {
  }

  /** The last placement of the name in the namespace. */
  lemma {:induction false} LastPlacementAt(placements: seq<Placement>, ns: string, name: string) returns (j: int)
    ensures -1 <= j < |placements|
    ensures LastPlacement(placements, ns, name) == if j >= 0 then Some(placements[j]) else None
    ensures j >= 0 ==> placements[j].ns == ns && placements[j].name == name
    ensures forall i :: j < i < |placements| ==> !(placements[i].ns == ns && placements[i].name == name)
  {
    if placements == [] {
      j := -1;
    } else {
      var n := |placements| - 1;
      if placements[n].ns == ns && placements[n].name == name {
        j := n;
      } else {
        j := LastPlacementAt(placements[..n], ns, name);
      }
    }
  }

  /** A subscription matches an application exactly if the application has expressions and each of
      them holds of the subscription's label under its key, operator by operator. */
  lemma MatchesIff(sub: Subscription, app: Application)
    ensures Matches(sub, app) <==>
              && app.matchExpressions.Some?
              && forall e :: e in app.matchExpressions.value ==>
                   && e.operator != OtherOperator
                   && (e.operator == In ==>
                         e.values.Some? && e.key in sub.labels && sub.labels[e.key] in e.values.value)
                   && (e.operator == NotIn ==>
                         e.values.None? || e.key !in sub.labels || sub.labels[e.key] !in e.values.value)
                   && (e.operator == Exists ==> e.key in sub.labels && e.values.None?)
                   && (e.operator == DoesNotExist ==> e.key !in sub.labels && e.values.None?)
  {
  }

  /** The applications that qualify, in their order: those with a component of kind Subscription. */
  lemma {:induction false} QualifyingPicks(apps: seq<Application>) returns (at: seq<nat>)
    ensures Picks(apps, at, QualifyingApps(apps))
    ensures forall k: nat :: k in at <==>
              k < |apps| && ("apps.open-cluster-management.io", "Subscription") in apps[k].componentKinds
  {
    if apps == [] {
      at := [];
    } else {
      var n := |apps| - 1;
      at := QualifyingPicks(apps[..n]);
      PicksSnoc(apps[..n], at, QualifyingApps(apps[..n]), apps[n]);
      assert apps[..n] + [apps[n]] == apps;
      if IsSubscriptionApp(apps[n]) {
        at := at + [n];
      }
    }
  }

  /** An application's subscriptions, in their order: those of its namespace that reference a
      placement or placement rule and match. */
  lemma {:induction false} AppSubsPicks(subs: seq<Subscription>, app: Application) returns (at: seq<nat>)
    ensures Picks(subs, at, AppSubs(subs, app))
    ensures forall k: nat :: k in at <==>
              && k < |subs| && subs[k].ns == app.ns && Matches(subs[k], app)
              && subs[k].ref.Some?
              && (subs[k].ref.value.kind == "PlacementRule" || subs[k].ref.value.kind == "Placement")
  {
    if subs == [] {
      at := [];
    } else {
      var n := |subs| - 1;
      at := AppSubsPicks(subs[..n], app);
      PicksSnoc(subs[..n], at, AppSubs(subs[..n], app), subs[n]);
      assert subs[..n] + [subs[n]] == subs;
      if IsPlacementModel(subs[n].ref) && subs[n].ns == app.ns && Matches(subs[n], app) {
        at := at + [n];
      }
    }
  }

  /** A subscription has a placement exactly if its reference is to a placement rule or placement and
      one of that name exists in its namespace. */
  lemma ResolvedIff(sub: Subscription, w: Watched)
    ensures ResolveByScan(sub, w).Some? <==>
              && sub.ref.Some?
              && (|| (sub.ref.value.kind == "PlacementRule"
                      && exists p :: p in w.rules && p.name == sub.ref.value.name && p.ns == sub.ns)
                  || (sub.ref.value.kind == "Placement"
                      && exists p :: p in w.placements && p.name == sub.ref.value.name && p.ns == sub.ns))
  {
    if IsPlacementModel(sub.ref) {
      LastPlacementIn(if sub.ref.value.kind == RULE_KIND then w.rules else w.placements, sub.ns, sub.ref.value.name);
    }
  }

  /** A subscription's placement has the kind and name of its reference, and its namespace. */
  lemma ResolvedFields(sub: Subscription, w: Watched)
    requires WellTyped(w) && ResolveByScan(sub, w).Some?
    ensures var p := ResolveByScan(sub, w).value;
            && sub.ref.Some? && p.kind == sub.ref.value.kind && p.name == sub.ref.value.name && p.ns == sub.ns
            && p in (if p.kind == "PlacementRule" then w.rules else w.placements)
  {
    LastPlacementIn(if sub.ref.value.kind == RULE_KIND then w.rules else w.placements, sub.ns, sub.ref.value.name);
  }

  /** The subscriptions of a placement, in their order: those that reference it by kind and name, in
      its namespace. */
  lemma {:induction false} OfPlacementPicks(subs: seq<Subscription>, w: Watched, p: Placement, s: Subscription)
    returns (at: seq<nat>)
    requires WellTyped(w) && ResolveByScan(s, w) == Some(p)
    ensures Picks(subs, at, OfPlacement(subs, w, p))
    ensures forall k: nat :: k in at <==>
              k < |subs| && subs[k].ref == Some(PlacementRef(p.kind, p.name)) && subs[k].ns == p.ns
  {
    if subs == [] {
      at := [];
    } else {
      var n := |subs| - 1;
      at := OfPlacementPicks(subs[..n], w, p, s);
      PicksSnoc(subs[..n], at, OfPlacement(subs[..n], w, p), subs[n]);
      assert subs[..n] + [subs[n]] == subs;
      ResolvedFields(s, w);
      if ResolveByScan(subs[n], w) == Some(p) {
        ResolvedFields(subs[n], w);
        at := at + [n];
      }
    }
  }

  lemma {:induction false} OfPlacementHas(subs: seq<Subscription>, w: Watched, p: Placement)
    ensures forall sub :: sub in OfPlacement(subs, w, p) <==> sub in subs && ResolveByScan(sub, w) == Some(p)
  {
    if subs == [] {
    } else {
      var n := |subs| - 1;
      OfPlacementHas(subs[..n], w, p);
      assert subs[..n] + [subs[n]] == subs;
    }
  }

  lemma GroupHasSubscription(g: Group, subs: seq<Subscription>, w: Watched) returns (sub: Subscription)
    requires Exact(g, subs, w)
    ensures sub in subs && ResolveByScan(sub, w) == Some(g.placement)
  {
    OfPlacementHas(subs, w, g.placement);
    sub := g.subscriptions[0];
    assert sub in OfPlacement(subs, w, g.placement);
  }

  lemma GroupOrigin(app: Application, w: Watched, g: Group) returns (sub: Subscription)
    requires WellTyped(w) && NaiveGroups(app, w).Ok? && g in NaiveGroups(app, w).value
    ensures Exact(g, AppSubs(w.subs, app), w)
    ensures sub in AppSubs(w.subs, app) && ResolveByScan(sub, w) == Some(g.placement)
  {
    GroupsPartitionSubscriptions(app, w);
    sub := GroupHasSubscription(g, AppSubs(w.subs, app), w);
  }

  lemma AppSubsNamespace(subs: seq<Subscription>, app: Application)
    ensures forall k :: 0 <= k < |AppSubs(subs, app)| ==> AppSubs(subs, app)[k].ns == app.ns
  {
    forall k | 0 <= k < |AppSubs(subs, app)|
      ensures AppSubs(subs, app)[k].ns == app.ns
    {
      AppSubsSpec(subs, app, AppSubs(subs, app)[k]);
    }
  }

  /** What a group holds, by fields: its placement is a watched one of the application's namespace, and
      its subscriptions are those of the application that reference it by kind and name, in order. */
  lemma GroupHolds(app: Application, w: Watched, g: Group) returns (at: seq<nat>)
    requires WellTyped(w) && NaiveGroups(app, w).Ok? && g in NaiveGroups(app, w).value
    ensures g.placement in (if g.placement.kind == "PlacementRule" then w.rules else w.placements)
    ensures g.placement.ns == app.ns && at != []
    ensures Picks(AppSubs(w.subs, app), at, g.subscriptions)
    ensures forall k: nat :: k in at <==>
              k < |AppSubs(w.subs, app)|
              && AppSubs(w.subs, app)[k].ref == Some(PlacementRef(g.placement.kind, g.placement.name))
  {
    var sub := GroupOrigin(app, w, g);
    ResolvedFields(sub, w);
    AppSubsSpec(w.subs, app, sub);
    AppSubsNamespace(w.subs, app);
    at := OfPlacementPicks(AppSubs(w.subs, app), w, g.placement, sub);
  }

  /** What a group carries, by fields: the first decision of this very placement, and its DR info, from
      the last resource that lists a DRPC which references it. */
  lemma GroupCarries(app: Application, w: Watched, g: Group) returns (d: nat, i: int, j: nat)
    requires WellTyped(w) && NaiveGroups(app, w).Ok? && g in NaiveGroups(app, w).value
    ensures d <= |w.decisions| && g.decision == if d < |w.decisions| then Some(w.decisions[d]) else None
    ensures var kindLabel := if g.placement.kind == "Placement" then "placement" else "placementrule";
            var key := "cluster.open-cluster-management.io/" + kindLabel;
            d < |w.decisions| ==>
              w.decisions[d].ns == g.placement.ns
              && (if key in w.decisions[d].labels then w.decisions[d].labels[key] else "") == g.placement.name
    ensures -1 <= i < |w.resources| && (i == -1 ==> g.drInfo.None?)
    ensures i >= 0 ==>
              var r := w.resources[i];
              && j < |r.drpcs| && g.drInfo == Some(DrInfo(r.policy, r.clusters, r.drpcs[j]))
              && r.drpcs[j].ref == Some(PlacementRef(g.placement.kind, g.placement.name))
              && r.drpcs[j].ns == g.placement.ns
    ensures forall r, c :: i < r < |w.resources| && c in w.resources[r].drpcs ==>
              !(c.ref == Some(PlacementRef(g.placement.kind, g.placement.name)) && c.ns == g.placement.ns)
  {
    var sub := GroupOrigin(app, w, g);
    d := DecisionIs(g.placement, w.decisions);
    i, j := DrInfoIs(g.placement, w.resources);
  }

  lemma {:induction false} AppKeysAt(apps: seq<Application>, k: nat)
    requires k < |apps|
    ensures AppKeys(apps)[k] == apps[k].ns
  {
    if k == |apps| - 1 {
    } else {
      AppKeysAt(apps[..|apps| - 1], k);
    }
  }

  /** The order of the result: applications of one namespace as they are listed, and namespaces by
      their first application. The indices are those among the qualifying applications. */
  lemma AppsKeepOrder(apps: seq<Application>, x: nat, y: nat) returns (a: nat, b: nat)
    requires var q := QualifyingApps(apps);
             && x < |q| && y < |q|
             && (|| (q[x].ns == q[y].ns && x < y)
                 || (q[x].ns != q[y].ns && exists f :: 0 <= f < |q| && q[f].ns == q[x].ns
                                              && forall i :: 0 <= i < f ==> q[i].ns != q[y].ns))
    ensures a < b < |AppOrder(apps)|
    ensures AppOrder(apps)[a] == QualifyingApps(apps)[x] && AppOrder(apps)[b] == QualifyingApps(apps)[y]
  {
    var q := QualifyingApps(apps);
    var keys := AppKeys(q);
    forall k: nat | k < |q|
      ensures keys[k] == q[k].ns
    {
      AppKeysAt(q, k);
    }
    if q[x].ns == q[y].ns {
      a, b := RegroupedKeepsOrder(keys, q, x, y);
    } else {
      var f :| 0 <= f < |q| && q[f].ns == q[x].ns && forall i :: 0 <= i < f ==> q[i].ns != q[y].ns;
      a, b := RegroupedByFirst(keys, q, x, y, f);
    }
  }

  /** Groups stand in the order of their first subscriptions. */
  lemma GroupsInOrderOfFirst(app: Application, w: Watched, i: nat, j: nat) returns (a: nat, b: nat)
    requires NaiveGroups(app, w).Ok? && i < j < |NaiveGroups(app, w).value|
    ensures var groups, subs := NaiveGroups(app, w).value, AppSubs(w.subs, app);
            && a < b < |subs|
            && ResolveByScan(subs[a], w).Some? && ResolveByScan(subs[b], w).Some?
            && UniqueId(ResolveByScan(subs[a], w).value) == UniqueId(groups[i].placement)
            && UniqueId(ResolveByScan(subs[b], w).value) == UniqueId(groups[j].placement)
            && (forall k :: 0 <= k < b && ResolveByScan(subs[k], w).Some? ==>
                  UniqueId(ResolveByScan(subs[k], w).value) != UniqueId(groups[j].placement))
  {
    var subs := AppSubs(w.subs, app);
    var placements := ResolvedByScan(subs, w).value;
    var order := Distinct(Ids(placements));
    ResolvedByScanSpec(subs, w);
    forall k: nat | k < |placements|
      ensures Ids(placements)[k] == UniqueId(placements[k])
    {
      IdsAt(placements, k);
    }
    a, b := DistinctOrder(Ids(placements), i, j);
    GroupIdIs(subs, placements, order[i], w);
    GroupIdIs(subs, placements, order[j], w);
  }

  lemma GroupIdIs(subs: seq<Subscription>, placements: seq<Placement>, id: string, w: Watched)
    requires ResolvedByScan(subs, w) == Some(placements) && id in Ids(placements)
    ensures UniqueId(GroupOf(subs, placements, id, w.decisions, w.resources).placement) == id
  {
    var sub := GroupPlacement(subs, placements, w, id);
  }
}
