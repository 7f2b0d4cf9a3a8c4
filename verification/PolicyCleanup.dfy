/**
 Deleting a DRPolicy together with the DRClusters that no other policy uses
 (packages/mco/components/drpolicy-list-page/drpolicy-list-page.tsx,
 packages/shared/src/modals/DeleteModal.tsx).
 */
module PolicyCleanup {
  import opened Options
  import opened Sequences
  import opened S3Profiles

  datatype Policy = DRPolicy(name: string, drClusters: seq<string>)

  datatype DrCluster = DrCluster(name: string, s3ProfileName: string)

  datatype MirrorPeer = MirrorPeer(manageS3: bool, clusters: seq<string>)

  /** What the page has loaded, possibly some time ago. */
  datatype Snapshot = Snapshot(policies: seq<Policy>, drClusters: seq<DrCluster>, mirrorPeers: seq<MirrorPeer>)

  // ----- what the page computes from a snapshot -----

  predicate Paired(mirrorPeers: seq<MirrorPeer>, cluster: string) {
    exists mp :: mp in mirrorPeers && mp.manageS3 && cluster in mp.clusters
  }

  function Unpaired(drClusters: seq<DrCluster>, mirrorPeers: seq<MirrorPeer>): seq<DrCluster> {
    if drClusters == [] then []
    else
      var dc := drClusters[|drClusters| - 1];
      Unpaired(drClusters[..|drClusters| - 1], mirrorPeers) + if Paired(mirrorPeers, dc.name) then [] else [dc]
  }

  method GetUnpairedDRClusters(drClusters: seq<DrCluster>, mirrorPeers: seq<MirrorPeer>) returns (r: seq<DrCluster>)
    ensures r == Unpaired(drClusters, mirrorPeers)
  {
    var pairedClusters: set<string> := {};
    for i := 0 to |mirrorPeers|
      invariant forall c :: c in pairedClusters <==> Paired(mirrorPeers[..i], c)
    {
      var mp := mirrorPeers[i];
      if mp.manageS3 {
        pairedClusters := pairedClusters + set c | c in mp.clusters;
      }
      assert mirrorPeers[..i + 1] == mirrorPeers[..i] + [mp];
    }
    assert mirrorPeers[..|mirrorPeers|] == mirrorPeers;
    r := [];
    for i := 0 to |drClusters|
      invariant r == Unpaired(drClusters[..i], mirrorPeers)
    {
      assert drClusters[..i + 1][..i] == drClusters[..i];
      if drClusters[i].name !in pairedClusters {
        r := r + [drClusters[i]];
      }
    }
    assert drClusters[..|drClusters|] == drClusters;
  }

  /** The policies that list the cluster. */
  function Associated(policies: seq<Policy>, cluster: string): seq<Policy> {
    if policies == [] then []
    else
      Associated(policies[..|policies| - 1], cluster)
      + if cluster in policies[|policies| - 1].drClusters then [policies[|policies| - 1]] else []
  }

  function FindCluster(drClusters: seq<DrCluster>, name: string): Option<DrCluster> {
    if drClusters == [] then None
    else if drClusters[0].name == name then Some(drClusters[0])
    else FindCluster(drClusters[1..], name)
  }

  /** The DRCluster object that the cleanup of a policy removes for a name it lists: it must be
      unpaired and listed by exactly one policy of the snapshot. */
  function Selected(snap: Snapshot, cluster: string): Option<DrCluster> {
    if |Associated(snap.policies, cluster)| != 1 then None
    else FindCluster(Unpaired(snap.drClusters, snap.mirrorPeers), cluster)
  }

  /** The object from cluster names to policies, filled for unpaired clusters with some policy. */
  method DrClusterToPoliciesMap(unpaired: seq<DrCluster>, policies: seq<Policy>) returns (m: map<string, seq<Policy>>)
    ensures forall c :: c in m <==> (exists dc :: dc in unpaired && dc.name == c) && Associated(policies, c) != []
    ensures forall c :: c in m ==> m[c] == Associated(policies, c)
  {
    m := map[];
    for i := 0 to |unpaired|
      invariant forall c :: c in m <==>
                  (exists dc :: dc in unpaired[..i] && dc.name == c) && Associated(policies, c) != []
      invariant forall c :: c in m ==> m[c] == Associated(policies, c)
    {
      assert unpaired[..i + 1] == unpaired[..i] + [unpaired[i]];
      var associatedPolicies := Associated(policies, unpaired[i].name);
      if |associatedPolicies| > 0 {
        m := m[unpaired[i].name := associatedPolicies];
      }
    }
    assert unpaired[..|unpaired|] == unpaired;
  }

  lemma {:induction false} FindClusterIs(drClusters: seq<DrCluster>, name: string)
    ensures var dc := FindCluster(drClusters, name);
            && (dc.Some? ==> dc.value in drClusters && dc.value.name == name)
            && (dc.None? ==> forall x :: x in drClusters ==> x.name != name)
  {
    if drClusters == [] || drClusters[0].name == name {
    } else {
      FindClusterIs(drClusters[1..], name);
      assert drClusters == [drClusters[0]] + drClusters[1..];
    }
  }

  /** The selection as the cleanup makes it from the two memoised values. */
  method Select(m: map<string, seq<Policy>>, unpaired: seq<DrCluster>, cluster: string, ghost snap: Snapshot)
    returns (dc: Option<DrCluster>)
    requires unpaired == Unpaired(snap.drClusters, snap.mirrorPeers)
    requires forall c :: c in m <==> (exists x :: x in unpaired && x.name == c) && Associated(snap.policies, c) != []
    requires forall c :: c in m ==> m[c] == Associated(snap.policies, c)
    ensures dc == Selected(snap, cluster)
  {
    FindClusterIs(unpaired, cluster);
    var associatedPolicies := if cluster in m then m[cluster] else [];
    dc := if |associatedPolicies| == 1 then FindCluster(unpaired, cluster) else None;
  }

  lemma {:induction false} AssociatedHas(policies: seq<Policy>, cluster: string, p: Policy)
    ensures p in Associated(policies, cluster) <==> p in policies && cluster in p.drClusters
  {
    if policies == [] {
    } else {
      var n := |policies| - 1;
      AssociatedHas(policies[..n], cluster, p);
      assert policies == policies[..n] + [policies[n]];
    }
  }

  lemma {:induction false} UnpairedHas(drClusters: seq<DrCluster>, mirrorPeers: seq<MirrorPeer>)
    ensures forall dc :: dc in Unpaired(drClusters, mirrorPeers) <==> dc in drClusters && !Paired(mirrorPeers, dc.name)
  {
    if drClusters == [] {
    } else {
      var n := |drClusters| - 1;
      UnpairedHas(drClusters[..n], mirrorPeers);
      assert drClusters == drClusters[..n] + [drClusters[n]];
    }
  }

  lemma {:induction false} AssociatedOnce(policies: seq<Policy>, cluster: string, p: Policy)
    requires NoDup(policies)
    requires forall q :: q in policies && cluster in q.drClusters ==> q == p
    ensures |Associated(policies, cluster)| <= 1
    ensures p !in policies ==> Associated(policies, cluster) == []
  {
    if policies == [] {
    } else {
      var n := |policies| - 1;
      assert policies == policies[..n] + [policies[n]];
      AssociatedOnce(policies[..n], cluster, p);
    }
  }

  /** For a policy of the snapshot: a listed cluster is selected exactly if it exists there, is not
      paired by a mirror peer that manages S3, and no other policy lists it. */
  lemma SelectedIff(snap: Snapshot, p: Policy, cluster: string)
    requires p in snap.policies && cluster in p.drClusters && NoDup(snap.policies)
    ensures Selected(snap, cluster).Some? <==>
              && (exists dc :: dc in snap.drClusters && dc.name == cluster)
              && (forall mp :: mp in snap.mirrorPeers && mp.manageS3 ==> cluster !in mp.clusters)
              && (forall q :: q in snap.policies && cluster in q.drClusters ==> q == p)
    ensures Selected(snap, cluster).Some? ==> Selected(snap, cluster).value.name == cluster
  {
    var associated := Associated(snap.policies, cluster);
    AssociatedHas(snap.policies, cluster, p);
    forall q
      ensures q in associated <==> q in snap.policies && cluster in q.drClusters
    {
      AssociatedHas(snap.policies, cluster, q);
    }
    UnpairedHas(snap.drClusters, snap.mirrorPeers);
    FindClusterIs(Unpaired(snap.drClusters, snap.mirrorPeers), cluster);
    if forall q :: q in snap.policies && cluster in q.drClusters ==> q == p {
      AssociatedOnce(snap.policies, cluster, p);
    }
    if |associated| == 1 {
      assert associated[0] == p;
    }
  }

  // ----- runs of deletions on stale snapshots -----

  /** The policies now and at every earlier moment, and the DRClusters now. */
  datatype State = State(policies: seq<Policy>, past: seq<seq<Policy>>, drClusters: set<string>)

  datatype Event =
    | DeleteDRCluster(snap: Snapshot, p: Policy, cluster: string)  // a step of the cleanup of `p`
    | DeletePolicy(p: Policy)

  /** The snapshot's policies are those of this or an earlier moment; its other lists are any. */
  predicate Enabled(s: State, e: Event) {
    match e
    case DeleteDRCluster(snap, p, cluster) =>
      && snap.policies in s.past && p in snap.policies
      && cluster in p.drClusters && Selected(snap, cluster).Some?
    case DeletePolicy(p) => p in s.policies
  }

  function Without(policies: seq<Policy>, p: Policy): seq<Policy> {
    if policies == [] then []
    else
      Without(policies[..|policies| - 1], p)
      + if policies[|policies| - 1] == p then [] else [policies[|policies| - 1]]
  }

  function After(s: State, e: Event): State {
    match e
    case DeleteDRCluster(_, _, cluster) => s.(drClusters := s.drClusters - {cluster})
    case DeletePolicy(p) => s.(policies := Without(s.policies, p), past := s.past + [Without(s.policies, p)])
  }

  /** No other remaining policy lists the deleted cluster, and no mirror peer manages its S3. */
  ghost predicate Safe(s: State, e: Event) {
    e.DeleteDRCluster? ==>
      && (forall q :: q in s.policies && q != e.p ==> e.cluster !in q.drClusters)
      && !Paired(e.snap.mirrorPeers, e.cluster)
  }

  ghost predicate Possible(s: State, events: seq<Event>)
    decreases |events|
  {
    events == [] || (Enabled(s, events[0]) && Possible(After(s, events[0]), events[1..]))
  }

  ghost predicate AlwaysSafe(s: State, events: seq<Event>)
    decreases |events|
  {
    events == [] || (Safe(s, events[0]) && AlwaysSafe(After(s, events[0]), events[1..]))
  }

  /** Policies only shrink, and each is listed once. */
  ghost predicate Shrinking(s: State) {
    && NoDup(s.policies)
    && forall before, q :: before in s.past ==> NoDup(before) && (q in s.policies ==> q in before)
  }

  lemma {:induction false} WithoutHas(policies: seq<Policy>, p: Policy)
    ensures forall q :: q in Without(policies, p) <==> q in policies && q != p
    ensures NoDup(policies) ==> NoDup(Without(policies, p))
  {
    if policies == [] {
    } else {
      var n := |policies| - 1;
      WithoutHas(policies[..n], p);
      assert policies == policies[..n] + [policies[n]];
      assert NoDup(policies) ==> NoDup(policies[..n]) && policies[n] !in policies[..n];
    }
  }

  lemma StepIsSafe(s: State, e: Event)
    requires Shrinking(s) && Enabled(s, e)
    ensures Safe(s, e) && Shrinking(After(s, e))
  {
    match e {
      case DeleteDRCluster(snap, p, cluster) =>
        SelectedIff(snap, p, cluster);
      case DeletePolicy(p) =>
        WithoutHas(s.policies, p);
    }
  }

  /** However stale the snapshots, as long as policies are only deleted: no run deletes a DRCluster
      that another remaining policy lists or that a mirror peer of the snapshot manages. */
  lemma {:induction false} RunsAreSafe(s: State, events: seq<Event>)
    requires Shrinking(s) && Possible(s, events)
    ensures AlwaysSafe(s, events)
    decreases |events|
  {
    if events == [] {
    } else {
      StepIsSafe(s, events[0]);
      RunsAreSafe(After(s, events[0]), events[1..]);
    }
  }

  /** When policies are also created, a deletion is safe exactly if none of the policies created
      since the snapshot lists the cluster. */
  lemma SafeIffNoneCreated(s: State, e: Event)
    requires e.DeleteDRCluster? && NoDup(e.snap.policies) && e.p in e.snap.policies
    requires e.cluster in e.p.drClusters && Selected(e.snap, e.cluster).Some?
    ensures Safe(s, e) <==> forall q :: q in s.policies && q !in e.snap.policies ==> e.cluster !in q.drClusters
  {
    SelectedIff(e.snap, e.p, e.cluster);
  }

  /** Such a deletion does take a DRCluster from a policy created since. */
  lemma CreatedPolicyLosesCluster() returns (s: State, e: Event)
    ensures e.DeleteDRCluster? && Enabled(s, e) && !Safe(s, e)
    ensures NoDup(s.policies) && NoDup(e.snap.policies)
    ensures exists q :: q in s.policies && q !in e.snap.policies && e.cluster in q.drClusters
  {
    var p, q := DRPolicy("p", ["a"]), DRPolicy("q", ["a"]);
    var snap := Snapshot([p], [DrCluster("a", "s")], []);
    s := State([p, q], [[p], [p, q]], {"a"});
    e := DeleteDRCluster(snap, p, "a");
    assert p.name != q.name;
    SelectedIff(snap, p, "a");
    assert snap.drClusters[0].name == "a";
    assert s.past[0] == snap.policies && q == s.policies[1];
    SafeIffNoneCreated(s, e);
  }

  // ----- the cleanup itself -----

  /** The DRClusters and profiles on the hub, and the number of requests sent so far. */
  datatype Hub = Hub(drClusters: set<string>, profiles: seq<Profile>, requests: nat)

  /** Outcome of each request, by number. */
  type Network = nat -> bool

  /** Removes the secret, the profile and the DRCluster; any failure ends the cleanup there. */
  function CleanOne(h: Hub, dc: DrCluster, ok: Network): (Hub, bool) {
    var n := h.requests;
    if !ok(n) then (h.(requests := n + 1), false)                                     // reading the profiles
    else if !HasName(h.profiles, dc.s3ProfileName) then (h.(requests := n + 1), false)  // nothing to destructure
    else if !ok(n + 1) then (h.(requests := n + 2), false)                            // deleting the secret
    else if !ok(n + 2) then (h.(requests := n + 3), false)                            // updating the ConfigMap
    else
      var profile := h.profiles[IndexOf(h.profiles, dc.s3ProfileName)];
      var h' := h.(profiles := Applied(Op(profile, true), h.profiles), requests := n + 4);
      if !ok(n + 3) then (h', false)                                                  // deleting the DRCluster
      else (h'.(drClusters := h'.drClusters - {dc.name}), true)
  }

  function CleanAll(h: Hub, snap: Snapshot, clusters: seq<string>, ok: Network): (Hub, bool)
    decreases |clusters|
  {
    if clusters == [] then (h, true)
    else
      var dc := Selected(snap, clusters[0]);
      var next := if dc.Some? then CleanOne(h, dc.value, ok) else (h, true);
      if next.1 then CleanAll(next.0, snap, clusters[1..], ok) else next
  }

  class HubClient {
    var drClusters: set<string>
    var profiles: seq<Profile>
    var requests: nat
    const ok: Network

    constructor (h: Hub, ok: Network)
      ensures Value() == h && this.ok == ok
    {
      drClusters, profiles, requests := h.drClusters, h.profiles, h.requests;
      this.ok := ok;
    }

    function Value(): Hub
      reads this
    {
      Hub(drClusters, profiles, requests)
    }

    method Send() returns (succeeded: bool)
      modifies this`requests
      ensures succeeded == ok(old(requests)) && requests == old(requests) + 1
    {
      succeeded := ok(requests);
      requests := requests + 1;
    }

    method CleanCluster(dc: DrCluster) returns (done: bool)
      modifies this
      ensures (Value(), done) == CleanOne(old(Value()), dc, ok)
    {
      var fetched := Send();
      if !fetched || !HasName(profiles, dc.s3ProfileName) {
        return false;
      }
      var s3Profile := profiles[IndexOf(profiles, dc.s3ProfileName)];
      var secretDeleted := Send();
      if !secretDeleted {
        return false;
      }
      var updated := Send();
      if !updated {
        return false;
      }
      var list := new ProfileList(Some(profiles));
      var changed := list.Update(s3Profile, true);
      profiles := list.s3StoreProfiles;
      done := Send();
      if done {
        drClusters := drClusters - {dc.name};
      }
    }

    /** The loop over the policy's clusters; the policy itself is deleted only if this succeeds. */
    method CleanupDRCluster(snap: Snapshot, p: Policy) returns (done: bool)
      modifies this
      ensures (Value(), done) == CleanAll(old(Value()), snap, p.drClusters, ok)
    {
      var unpaired := GetUnpairedDRClusters(snap.drClusters, snap.mirrorPeers);
      var policiesMap := DrClusterToPoliciesMap(unpaired, snap.policies);
      var i := 0;
      while i < |p.drClusters|
        invariant i <= |p.drClusters|
        invariant CleanAll(Value(), snap, p.drClusters[i..], ok) == CleanAll(old(Value()), snap, p.drClusters, ok)
      {
        assert p.drClusters[i..][1..] == p.drClusters[i + 1..];
        var dc := Select(policiesMap, unpaired, p.drClusters[i], snap);
        if dc.Some? {
          done := CleanCluster(dc.value);
          if !done {
            return;
          }
        }
        i := i + 1;
      }
      done := true;
    }
  }

  /** The DRClusters that the cleanup of these names selects, in order. */
  function SelectedAll(snap: Snapshot, clusters: seq<string>): seq<DrCluster> {
    if clusters == [] then []
    else
      (if Selected(snap, clusters[0]).Some? then [Selected(snap, clusters[0]).value] else [])
      + SelectedAll(snap, clusters[1..])
  }

  /** The profiles of these DRClusters are on the hub, and no two of them share one. */
  ghost predicate OwnProfiles(dcs: seq<DrCluster>, profiles: seq<Profile>) {
    && (forall k :: 0 <= k < |dcs| ==> HasName(profiles, dcs[k].s3ProfileName))
    && (forall i, j :: 0 <= i < j < |dcs| ==> dcs[i].s3ProfileName != dcs[j].s3ProfileName)
  }

  function Names(dcs: seq<DrCluster>): set<string> {
    set dc | dc in dcs :: dc.name
  }

  function ProfileNames(dcs: seq<DrCluster>): set<string> {
    set dc | dc in dcs :: dc.s3ProfileName
  }

  lemma HasNameAfterRemove(profiles: seq<Profile>, name: string, other: string)
    requires UniqueNames(profiles) && HasName(profiles, name)
    ensures var after := Applied(Op(profiles[IndexOf(profiles, name)], true), profiles);
            UniqueNames(after) && (HasName(after, other) <==> HasName(profiles, other) && other != name)
  {
    var op := Op(profiles[IndexOf(profiles, name)], true);
    AppliedKeepsUnique(op, profiles);
    AppliedLookup(op, profiles, other);
  }

  lemma OwnProfilesStep(dc: DrCluster, rest: seq<DrCluster>, profiles: seq<Profile>, after: seq<Profile>)
    requires HasName(profiles, dc.s3ProfileName)
    requires forall name :: HasName(after, name) <==> HasName(profiles, name) && name != dc.s3ProfileName
    ensures OwnProfiles([dc] + rest, profiles) <==> OwnProfiles(rest, after)
  {
    var all := [dc] + rest;
    assert all[1..] == rest;
    if OwnProfiles(all, profiles) {
      forall k | 0 <= k < |rest|
        ensures HasName(after, rest[k].s3ProfileName)
      {
        assert rest[k] == all[k + 1] && all[0] == dc;
        assert HasName(profiles, all[k + 1].s3ProfileName);
      }
      forall i, j | 0 <= i < j < |rest|
        ensures rest[i].s3ProfileName != rest[j].s3ProfileName
      {
        assert rest[i] == all[i + 1] && rest[j] == all[j + 1];
      }
    }
    if OwnProfiles(rest, after) {
      forall i, j | 0 <= i < j < |all|
        ensures all[i].s3ProfileName != all[j].s3ProfileName
      {
        assert all[j] == rest[j - 1];
        assert i > 0 ==> all[i] == rest[i - 1];
      }
    }
  }

  /** When all requests succeed, the cleanup removes exactly the selected DRClusters and their
      profiles, if each has a profile of its own; otherwise it stops with an error, so that the
      policy stays. */
  lemma {:induction false} CleanupCompletesIff(h: Hub, snap: Snapshot, clusters: seq<string>, ok: Network)
    requires UniqueNames(h.profiles) && forall n: nat :: ok(n)
    ensures var (h', done) := CleanAll(h, snap, clusters, ok);
            && (done <==> OwnProfiles(SelectedAll(snap, clusters), h.profiles))
            && (done ==> h'.drClusters == h.drClusters - Names(SelectedAll(snap, clusters)))
            && (done ==> forall name :: HasName(h'.profiles, name) <==>
                  HasName(h.profiles, name) && name !in ProfileNames(SelectedAll(snap, clusters)))
    decreases |clusters|
  {
    if clusters == [] {
    } else {
      var dc, rest := Selected(snap, clusters[0]), SelectedAll(snap, clusters[1..]);
      if dc.None? {
        assert SelectedAll(snap, clusters) == rest;
        CleanupCompletesIff(h, snap, clusters[1..], ok);
      } else {
        var all := SelectedAll(snap, clusters);
        assert all == [dc.value] + rest && all[1..] == rest;
        if HasName(h.profiles, dc.value.s3ProfileName) {
          var (next, _) := CleanOne(h, dc.value, ok);
          forall name
            ensures HasName(next.profiles, name) <==> HasName(h.profiles, name) && name != dc.value.s3ProfileName
            ensures UniqueNames(next.profiles)
          {
            HasNameAfterRemove(h.profiles, dc.value.s3ProfileName, name);
          }
          CleanupCompletesIff(next, snap, clusters[1..], ok);
          OwnProfilesStep(dc.value, rest, h.profiles, next.profiles);
          assert Names(all) == {dc.value.name} + Names(rest);
          assert ProfileNames(all) == {dc.value.s3ProfileName} + ProfileNames(rest);
        } else {
          assert all[0] == dc.value;
        }
      }
    }
  }

  lemma {:induction false} SelectedAllHas(snap: Snapshot, clusters: seq<string>, c: string)
    requires forall x :: x in clusters && Selected(snap, x).Some? ==> Selected(snap, x).value.name == x
    ensures c in Names(SelectedAll(snap, clusters)) <==> c in clusters && Selected(snap, c).Some?
  {
    if clusters == [] {
    } else {
      assert forall x :: x in clusters <==> x == clusters[0] || x in clusters[1..];
      SelectedAllHas(snap, clusters[1..], c);
      var first, rest := Selected(snap, clusters[0]), SelectedAll(snap, clusters[1..]);
      if first.Some? {
        assert SelectedAll(snap, clusters) == [first.value] + rest;
        assert Names(SelectedAll(snap, clusters)) == {first.value.name} + Names(rest);
      } else {
        assert SelectedAll(snap, clusters) == rest;
      }
    }
  }

  /** Whatever requests fail, a cleanup removes no DRCluster but those it selects. */
  lemma {:induction false} RemovesOnlySelected(h: Hub, snap: Snapshot, clusters: seq<string>, ok: Network)
    ensures h.drClusters - CleanAll(h, snap, clusters, ok).0.drClusters <= Names(SelectedAll(snap, clusters))
    decreases |clusters|
  {
    if clusters == [] {
    } else {
      var dc, rest := Selected(snap, clusters[0]), SelectedAll(snap, clusters[1..]);
      var next := if dc.Some? then CleanOne(h, dc.value, ok) else (h, true);
      RemovesOnlySelected(next.0, snap, clusters[1..], ok);
      if dc.Some? {
        assert SelectedAll(snap, clusters) == [dc.value] + rest;
        assert Names(SelectedAll(snap, clusters)) == {dc.value.name} + Names(rest);
      } else {
        assert SelectedAll(snap, clusters) == rest;
      }
    }
  }

  /** So the cleanup of a policy itself, on a snapshot however stale and with requests failing
      anywhere, removes only clusters of the policy that no other remaining policy lists and no
      mirror peer of the snapshot manages. */
  lemma CleanupIsSafe(s: State, h: Hub, snap: Snapshot, p: Policy, ok: Network)
    requires Shrinking(s) && snap.policies in s.past && p in snap.policies
    ensures forall c :: c in h.drClusters && c !in CleanAll(h, snap, p.drClusters, ok).0.drClusters ==>
              && Enabled(s, DeleteDRCluster(snap, p, c)) && Safe(s, DeleteDRCluster(snap, p, c))
              && c in p.drClusters
              && (forall q :: q in s.policies && q != p ==> c !in q.drClusters)
              && (forall mp :: mp in snap.mirrorPeers && mp.manageS3 ==> c !in mp.clusters)
  {
    RemovesOnlySelected(h, snap, p.drClusters, ok);
    forall c | c in p.drClusters && Selected(snap, c).Some?
      ensures Selected(snap, c).value.name == c
    {
      SelectedIff(snap, p, c);
    }
    forall c | c in h.drClusters && c !in CleanAll(h, snap, p.drClusters, ok).0.drClusters
      ensures Enabled(s, DeleteDRCluster(snap, p, c)) && Safe(s, DeleteDRCluster(snap, p, c))
      ensures c in p.drClusters && (forall q :: q in s.policies && q != p ==> c !in q.drClusters)
      ensures forall mp :: mp in snap.mirrorPeers && mp.manageS3 ==> c !in mp.clusters
    {
      SelectedAllHas(snap, p.drClusters, c);
      StepIsSafe(s, DeleteDRCluster(snap, p, c));
    }
  }

  // ----- profiles of other DRClusters -----

  lemma OneKeepsProfile(h: Hub, dc: DrCluster, ok: Network, name: string)
    requires UniqueNames(h.profiles) && name != dc.s3ProfileName
    ensures UniqueNames(CleanOne(h, dc, ok).0.profiles)
    ensures Lookup(CleanOne(h, dc, ok).0.profiles, name) == Lookup(h.profiles, name)
  {
    if HasName(h.profiles, dc.s3ProfileName) {
      var op := Op(h.profiles[IndexOf(h.profiles, dc.s3ProfileName)], true);
      AppliedKeepsUnique(op, h.profiles);
      AppliedLookup(op, h.profiles, name);
    }
  }

  /** Whatever requests fail, a profile that no selected DRCluster uses stays as it is. */
  lemma {:induction false} KeepsOtherProfiles(h: Hub, snap: Snapshot, clusters: seq<string>, ok: Network, name: string)
    requires UniqueNames(h.profiles) && name !in ProfileNames(SelectedAll(snap, clusters))
    ensures Lookup(CleanAll(h, snap, clusters, ok).0.profiles, name) == Lookup(h.profiles, name)
    decreases |clusters|
  {
    if clusters == [] {
    } else {
      var dc, rest := Selected(snap, clusters[0]), SelectedAll(snap, clusters[1..]);
      if dc.None? {
        assert SelectedAll(snap, clusters) == rest;
        KeepsOtherProfiles(h, snap, clusters[1..], ok, name);
      } else {
        assert SelectedAll(snap, clusters) == [dc.value] + rest;
        assert ProfileNames([dc.value] + rest) == {dc.value.s3ProfileName} + ProfileNames(rest);
        OneKeepsProfile(h, dc.value, ok, name);
        KeepsOtherProfiles(CleanOne(h, dc.value, ok).0, snap, clusters[1..], ok, name);
      }
    }
  }

  /** A completed cleanup leaves the other DRClusters their profiles exactly if none of them shares
      one with a DRCluster that it removes. */
  lemma OthersKeepProfilesIff(h: Hub, snap: Snapshot, clusters: seq<string>, ok: Network, others: set<DrCluster>)
    requires UniqueNames(h.profiles) && forall n: nat :: ok(n)
    requires OwnProfiles(SelectedAll(snap, clusters), h.profiles)
    requires forall dc :: dc in others ==> HasName(h.profiles, dc.s3ProfileName)
    ensures (forall dc :: dc in others ==> HasName(CleanAll(h, snap, clusters, ok).0.profiles, dc.s3ProfileName))
       <==> forall dc, x :: dc in others && x in SelectedAll(snap, clusters) ==> dc.s3ProfileName != x.s3ProfileName
  {
    CleanupCompletesIff(h, snap, clusters, ok);
    var selected := SelectedAll(snap, clusters);
    forall dc: DrCluster
      ensures dc.s3ProfileName in ProfileNames(selected) <==>
                exists x :: x in selected && dc.s3ProfileName == x.s3ProfileName
    {
    }
  }

  lemma SelectedIsA(snap: Snapshot, p: Policy, q: Policy, a: DrCluster, b: DrCluster)
    requires snap == Snapshot([p, q], [a, b], [])
    requires a.name in p.drClusters && a.name !in q.drClusters && a.name != b.name
    ensures Selected(snap, a.name) == Some(a)
  {
    assert NoDup(snap.policies);
    assert snap.drClusters[0] == a;
    SelectedIff(snap, p, a.name);
    FindClusterIs(Unpaired(snap.drClusters, snap.mirrorPeers), a.name);
    UnpairedHas(snap.drClusters, snap.mirrorPeers);
  }

  /** A cleanup can take the profile of a DRCluster that another remaining policy lists. */
  lemma SharedProfileIsLost() returns (h: Hub, snap: Snapshot, p: Policy, q: Policy, dc: DrCluster)
    ensures UniqueNames(h.profiles) && NoDup(snap.policies) && p in snap.policies && q in snap.policies && p != q
    ensures dc in snap.drClusters && dc.name in q.drClusters && dc.name !in p.drClusters
    ensures HasName(h.profiles, dc.s3ProfileName)
    ensures forall ok: Network :: (forall n: nat :: ok(n)) ==>
              CleanAll(h, snap, p.drClusters, ok).1
              && !HasName(CleanAll(h, snap, p.drClusters, ok).0.profiles, dc.s3ProfileName)
  {
    var a := DrCluster("a", "s");
    dc := DrCluster("b", "s");
    p, q := DRPolicy("p", ["a"]), DRPolicy("q", ["b"]);
    snap := Snapshot([p, q], [a, dc], []);
    h := Hub({"a", "b"}, [Profile("s", map[])], 0);
    assert h.profiles[0].name == "s";
    assert p.name != q.name;
    assert SelectedAll(snap, p.drClusters) == [a] by {
      SelectedIsA(snap, p, q, a, dc);
      assert p.drClusters[1..] == [];
    }
    forall ok: Network | forall n: nat :: ok(n)
      ensures CleanAll(h, snap, p.drClusters, ok).1
      ensures !HasName(CleanAll(h, snap, p.drClusters, ok).0.profiles, dc.s3ProfileName)
    {
      assert OwnProfiles([a], h.profiles);
      CleanupCompletesIff(h, snap, p.drClusters, ok);
      OthersKeepProfilesIff(h, snap, p.drClusters, ok, {dc});
      assert dc.s3ProfileName == a.s3ProfileName;
    }
  }

  // ----- where a cleanup stops -----

  /** The requests numbered from `from` up to `to` all succeeded. */
  ghost predicate Succeeded(ok: Network, from: nat, to: nat) {
    forall n: nat :: from <= n < to ==> ok(n)
  }

  /** The profiles that are left are those of other names than the ones of these DRClusters. */
  ghost predicate ProfilesGone(before: seq<Profile>, after: seq<Profile>, dcs: seq<DrCluster>) {
    forall name ::
      HasName(after, name) <==> HasName(before, name) && forall dc :: dc in dcs ==> dc.s3ProfileName != name
  }

  /** The hub after the cleanups of these DRClusters, four successful requests each. */
  ghost predicate Cleaned(before: Hub, after: Hub, dcs: seq<DrCluster>, ok: Network) {
    && after.requests == before.requests + 4 * |dcs| && Succeeded(ok, before.requests, after.requests)
    && after.drClusters == before.drClusters - Names(dcs)
    && ProfilesGone(before.profiles, after.profiles, dcs)
  }

  /** The hub after a cleanup of one DRCluster that has failed at its request number `r` of four: the
      profiles are read, the secret is deleted, the ConfigMap is updated, the DRCluster is deleted.
      The profile is gone only if the update had succeeded, the DRCluster never. */
  ghost predicate FailedAt(before: Hub, after: Hub, dc: DrCluster, r: nat, ok: Network) {
    && 1 <= r <= 4 && after.requests == before.requests + r
    && Succeeded(ok, before.requests, before.requests + r - 1)
    && after.drClusters == before.drClusters
    && (if ok(before.requests + r - 1) then r == 1 && !HasName(before.profiles, dc.s3ProfileName)
        else r > 1 ==> HasName(before.profiles, dc.s3ProfileName))
    && ProfilesGone(before.profiles, after.profiles, if r == 4 then [dc] else [])
  }

  lemma OneStops(h: Hub, dc: DrCluster, ok: Network)
    requires UniqueNames(h.profiles)
    ensures var (h', done) := CleanOne(h, dc, ok);
            && UniqueNames(h'.profiles)
            && (done ==> Cleaned(h, h', [dc], ok) && HasName(h.profiles, dc.s3ProfileName))
            && (!done ==> exists r :: FailedAt(h, h', dc, r, ok))
  {
    var (h', done) := CleanOne(h, dc, ok);
    var n, found := h.requests, HasName(h.profiles, dc.s3ProfileName);
    if found {
      forall name
        ensures var after := Applied(Op(h.profiles[IndexOf(h.profiles, dc.s3ProfileName)], true), h.profiles);
                HasName(after, name) <==> HasName(h.profiles, name) && name != dc.s3ProfileName
      {
        HasNameAfterRemove(h.profiles, dc.s3ProfileName, name);
      }
      AppliedKeepsUnique(Op(h.profiles[IndexOf(h.profiles, dc.s3ProfileName)], true), h.profiles);
    }
    if done {
      assert Names([dc]) == {dc.name};
    } else {
      var r := h'.requests - n;
      assert FailedAt(h, h', dc, r, ok);
    }
  }

  lemma CleanedThen(h: Hub, mid: Hub, after: Hub, dc: DrCluster, rest: seq<DrCluster>, ok: Network)
    requires Cleaned(h, mid, [dc], ok) && Cleaned(mid, after, rest, ok)
    ensures Cleaned(h, after, [dc] + rest, ok)
  {
    assert Names([dc] + rest) == Names([dc]) + Names(rest);
    assert forall x :: x in [dc] + rest <==> x == dc || x in rest;
  }

  lemma CleanedNothing(h: Hub, ok: Network)
    ensures Cleaned(h, h, [], ok)
  {
    assert Names([]) == {};
  }

  /** For every network, a cleanup goes through some of the selected DRClusters completely and then is
      done, or fails at one request for the next of them, which is its last request. */
  lemma {:induction false} CleanupStops(h: Hub, snap: Snapshot, clusters: seq<string>, ok: Network)
    returns (m: nat, mid: Hub, r: nat)
    requires UniqueNames(h.profiles)
    ensures var (h', done) := CleanAll(h, snap, clusters, ok);
            var selected := SelectedAll(snap, clusters);
            && m <= |selected| && Cleaned(h, mid, selected[..m], ok)
            && (done ==> m == |selected| && h' == mid)
            && (!done ==> m < |selected| && FailedAt(mid, h', selected[m], r, ok))
    decreases |clusters|
  {
    var all := SelectedAll(snap, clusters);
    if clusters == [] {
      m, mid, r := 0, h, 0;
      CleanedNothing(h, ok);
    } else {
      var dc, rest := Selected(snap, clusters[0]), SelectedAll(snap, clusters[1..]);
      if dc.None? {
        assert all == rest;
        m, mid, r := CleanupStops(h, snap, clusters[1..], ok);
      } else {
        assert all == [dc.value] + rest;
        OneStops(h, dc.value, ok);
        var (next, done) := CleanOne(h, dc.value, ok);
        if done {
          m, mid, r := CleanupStops(next, snap, clusters[1..], ok);
          CleanedThen(h, next, mid, dc.value, rest[..m], ok);
          m := m + 1;
          assert all[..m] == [dc.value] + rest[..m - 1];
        } else {
          m, mid := 0, h;
          CleanedNothing(h, ok);
          assert all[..0] == [];
          r :| FailedAt(h, next, dc.value, r, ok);
        }
      }
    }
  }

  lemma OneSame(h: Hub, dc: DrCluster, ok: Network, always: Network)
    requires forall n :: always(n)
    requires Succeeded(ok, h.requests, CleanOne(h, dc, ok).0.requests)
    ensures CleanOne(h, dc, ok) == CleanOne(h, dc, always)
    ensures h.requests <= CleanOne(h, dc, ok).0.requests
  {
  }

  lemma {:induction false} RequestsGrow(h: Hub, snap: Snapshot, clusters: seq<string>, ok: Network)
    ensures h.requests <= CleanAll(h, snap, clusters, ok).0.requests
    decreases |clusters|
  {
    if clusters == [] {
    } else {
      var dc := Selected(snap, clusters[0]);
      var next := if dc.Some? then CleanOne(h, dc.value, ok) else (h, true);
      if next.1 {
        RequestsGrow(next.0, snap, clusters[1..], ok);
      }
    }
  }

  /** If every request that was sent succeeded, the result is that of a network that never fails. */
  lemma {:induction false} AllSame(h: Hub, snap: Snapshot, clusters: seq<string>, ok: Network, always: Network)
    requires forall n :: always(n)
    requires Succeeded(ok, h.requests, CleanAll(h, snap, clusters, ok).0.requests)
    ensures CleanAll(h, snap, clusters, ok) == CleanAll(h, snap, clusters, always)
    decreases |clusters|
  {
    if clusters == [] {
    } else {
      var dc := Selected(snap, clusters[0]);
      var next := if dc.Some? then CleanOne(h, dc.value, ok) else (h, true);
      if next.1 {
        RequestsGrow(next.0, snap, clusters[1..], ok);
      }
      if dc.Some? {
        OneSame(h, dc.value, ok, always);
      }
      if next.1 {
        AllSame(next.0, snap, clusters[1..], ok, always);
      }
    }
  }

  /** For every network: a failed request is the last one that is sent, and ends the cleanup. */
  lemma FailureIsLast(h: Hub, snap: Snapshot, clusters: seq<string>, ok: Network, n: nat)
    requires UniqueNames(h.profiles)
    requires h.requests <= n < CleanAll(h, snap, clusters, ok).0.requests && !ok(n)
    ensures n == CleanAll(h, snap, clusters, ok).0.requests - 1 && !CleanAll(h, snap, clusters, ok).1
  {
    var m, mid, r := CleanupStops(h, snap, clusters, ok);
  }

  /** For every network: the cleanup completes exactly if every request it sent succeeded and each
      selected DRCluster has a profile of its own. */
  lemma CleanupDoneIff(h: Hub, snap: Snapshot, clusters: seq<string>, ok: Network)
    requires UniqueNames(h.profiles)
    ensures var (h', done) := CleanAll(h, snap, clusters, ok);
            && (done <==>
                  Succeeded(ok, h.requests, h'.requests) && OwnProfiles(SelectedAll(snap, clusters), h.profiles))
            && (done ==> h'.requests == h.requests + 4 * |SelectedAll(snap, clusters)|)
  {
    var (h', done) := CleanAll(h, snap, clusters, ok);
    if done {
      var m, mid, r := CleanupStops(h, snap, clusters, ok);
      assert Succeeded(ok, h.requests, h'.requests);
    }
    if Succeeded(ok, h.requests, h'.requests) {
      var always: Network := n => true;
      AllSame(h, snap, clusters, ok, always);
      CleanupCompletesIff(h, snap, clusters, always);
    }
  }

  /** For every network: a selected DRCluster is removed only if its profile is gone, and at most one
      selected DRCluster is left behind without its profile. */
  lemma RemovedWithoutProfile(h: Hub, snap: Snapshot, clusters: seq<string>, ok: Network) returns (m: nat)
    requires UniqueNames(h.profiles)
    ensures var (h', done) := CleanAll(h, snap, clusters, ok);
            var selected := SelectedAll(snap, clusters);
            && m <= |selected|
            && h'.drClusters == h.drClusters - Names(selected[..m])
            && (forall k :: 0 <= k < m ==> !HasName(h'.profiles, selected[k].s3ProfileName))
            && (forall name :: HasName(h.profiles, name) && !HasName(h'.profiles, name) ==>
                  exists k :: 0 <= k < |selected| && k <= m && selected[k].s3ProfileName == name)
  {
    var mid, r;
    m, mid, r := CleanupStops(h, snap, clusters, ok);
    var (h', done) := CleanAll(h, snap, clusters, ok);
    var selected := SelectedAll(snap, clusters);
    forall k | 0 <= k < m
      ensures !HasName(h'.profiles, selected[k].s3ProfileName)
    {
      assert selected[..m][k] == selected[k];
    }
    forall name | HasName(h.profiles, name) && !HasName(h'.profiles, name)
      ensures exists k :: 0 <= k < |selected| && k <= m && selected[k].s3ProfileName == name
    {
      if HasName(mid.profiles, name) {
        assert !done && selected[m].s3ProfileName == name;
      } else {
        var dc :| dc in selected[..m] && dc.s3ProfileName == name;
        var k :| 0 <= k < m && selected[..m][k] == dc;
        assert selected[k].s3ProfileName == name;
      }
    }
  }

  /** With fresh data, the last policy over its clusters removes every unpaired DRCluster it lists,
      and none besides, if every request succeeds and each of them has a profile of its own. */
  lemma LastPolicyRemoves(h: Hub, snap: Snapshot, p: Policy, ok: Network)
    requires UniqueNames(h.profiles) && forall n: nat :: ok(n)
    requires NoDup(snap.policies) && p in snap.policies
    requires forall q, c :: q in snap.policies && q != p && c in p.drClusters ==> c !in q.drClusters
    requires OwnProfiles(SelectedAll(snap, p.drClusters), h.profiles)
    ensures var (h', done) := CleanAll(h, snap, p.drClusters, ok);
            && done
            && forall c :: c in h'.drClusters <==>
                 c in h.drClusters
                 && !(c in p.drClusters && (forall mp :: mp in snap.mirrorPeers && mp.manageS3 ==> c !in mp.clusters)
                   && exists dc :: dc in snap.drClusters && dc.name == c)
  {
    CleanupCompletesIff(h, snap, p.drClusters, ok);
    forall c | c in p.drClusters
      ensures Selected(snap, c).Some? <==>
                !Paired(snap.mirrorPeers, c) && exists dc :: dc in snap.drClusters && dc.name == c
      ensures Selected(snap, c).Some? ==> Selected(snap, c).value.name == c
    {
      SelectedIff(snap, p, c);
    }
    forall c
      ensures c in Names(SelectedAll(snap, p.drClusters)) <==> c in p.drClusters && Selected(snap, c).Some?
    {
      SelectedAllHas(snap, p.drClusters, c);
    }
  }

  lemma SelectedOfTwo(snap: Snapshot, p: Policy, a: DrCluster, b: DrCluster)
    requires snap == Snapshot([p], [a, b], []) && a.name != b.name && a.name in p.drClusters && b.name in p.drClusters
    ensures Selected(snap, a.name) == Some(a) && Selected(snap, b.name) == Some(b)
  {
    assert snap.drClusters[0] == a && snap.drClusters[1] == b;
    SelectedIff(snap, p, a.name);
    SelectedIff(snap, p, b.name);
    FindClusterIs(Unpaired(snap.drClusters, snap.mirrorPeers), a.name);
    FindClusterIs(Unpaired(snap.drClusters, snap.mirrorPeers), b.name);
    UnpairedHas(snap.drClusters, snap.mirrorPeers);
  }

  lemma SecondFindsNone(h: Hub, a: DrCluster, b: DrCluster, ok: Network)
    requires h == Hub({"a", "b"}, [Profile("s", map[])], 0) && forall n: nat :: ok(n)
    requires a == DrCluster("a", "s") && b == DrCluster("b", "s")
    ensures CleanOne(h, a, ok).1 && CleanOne(h, a, ok).0.drClusters == {"b"}
    ensures var next := CleanOne(h, a, ok).0;
            !CleanOne(next, b, ok).1 && CleanOne(next, b, ok).0.drClusters == {"b"}
  {
    assert h.profiles[0].name == "s" && HasName(h.profiles, "s");
    HasNameAfterRemove(h.profiles, "s", "s");
  }

  /** A policy that lists two DRClusters of one profile: the cleanup removes the first and stops. */
  lemma SharedProfileStopsHalfWay() returns (h: Hub, snap: Snapshot, p: Policy)
    ensures UniqueNames(h.profiles) && NoDup(snap.policies) && p in snap.policies
    ensures forall ok: Network :: (forall n: nat :: ok(n)) ==>
              !CleanAll(h, snap, p.drClusters, ok).1
              && h.drClusters == {"a", "b"} && CleanAll(h, snap, p.drClusters, ok).0.drClusters == {"b"}
  {
    var a, b := DrCluster("a", "s"), DrCluster("b", "s");
    p := DRPolicy("p", ["a", "b"]);
    snap := Snapshot([p], [a, b], []);
    h := Hub({"a", "b"}, [Profile("s", map[])], 0);
    assert p.drClusters[1..] == ["b"];
    SelectedOfTwo(snap, p, a, b);
    forall ok: Network | forall n: nat :: ok(n)
      ensures !CleanAll(h, snap, p.drClusters, ok).1
      ensures CleanAll(h, snap, p.drClusters, ok).0.drClusters == {"b"}
    {
      SecondFindsNone(h, a, b, ok);
      var next := CleanOne(h, a, ok).0;
      assert CleanAll(next, snap, ["b"], ok) == CleanOne(next, b, ok);
    }
  }

  // ----- which deletions of stale pages clean up -----

  /** The deletion of a policy from a page that shows the snapshot, and the outcomes of its requests. */
  datatype Deletion = Deletion(p: Policy, snap: Snapshot, ok: Network)

  /** The hub after these deletions. */
  function CleanRun(h: Hub, deletions: seq<Deletion>): Hub
    decreases |deletions|
  {
    if deletions == [] then h
    else
      var d := deletions[0];
      CleanRun(CleanAll(h, d.snap, d.p.drClusters, d.ok).0, deletions[1..])
  }

  /** Every cleanup comes to its end, so that each policy is deleted. */
  predicate AllComplete(h: Hub, deletions: seq<Deletion>)
    decreases |deletions|
  {
    deletions == []
    || (var d := deletions[0];
        var (h', done) := CleanAll(h, d.snap, d.p.drClusters, d.ok);
        done && AllComplete(h', deletions[1..]))
  }

  /** The page shows the policy, and each policy once. */
  ghost predicate Shown(d: Deletion) {
    d.p in d.snap.policies && NoDup(d.snap.policies)
  }

  /** On the page the policy is the only one that lists the cluster, which exists and is unpaired. */
  ghost predicate LastOnPage(d: Deletion, cluster: string) {
    && cluster in d.p.drClusters
    && (forall q :: q in d.snap.policies && cluster in q.drClusters ==> q == d.p)
    && (exists dc :: dc in d.snap.drClusters && dc.name == cluster) && !Paired(d.snap.mirrorPeers, cluster)
  }

  lemma {:induction false} CompletedRemovesSelected(h: Hub, snap: Snapshot, clusters: seq<string>, ok: Network)
    requires CleanAll(h, snap, clusters, ok).1
    ensures CleanAll(h, snap, clusters, ok).0.drClusters == h.drClusters - Names(SelectedAll(snap, clusters))
    decreases |clusters|
  {
    if clusters == [] {
    } else {
      var dc, rest := Selected(snap, clusters[0]), SelectedAll(snap, clusters[1..]);
      var next := if dc.Some? then CleanOne(h, dc.value, ok).0 else h;
      CompletedRemovesSelected(next, snap, clusters[1..], ok);
      if dc.Some? {
        assert SelectedAll(snap, clusters) == [dc.value] + rest;
        assert Names([dc.value] + rest) == {dc.value.name} + Names(rest);
      } else {
        assert SelectedAll(snap, clusters) == rest;
      }
    }
  }

  lemma DeletionRemovesIff(h: Hub, d: Deletion, cluster: string)
    requires Shown(d) && CleanAll(h, d.snap, d.p.drClusters, d.ok).1 && cluster in h.drClusters
    ensures cluster !in CleanAll(h, d.snap, d.p.drClusters, d.ok).0.drClusters <==> LastOnPage(d, cluster)
  {
    CompletedRemovesSelected(h, d.snap, d.p.drClusters, d.ok);
    forall c | c in d.p.drClusters
      ensures Selected(d.snap, c).Some? ==> Selected(d.snap, c).value.name == c
      ensures Selected(d.snap, c).Some? <==> LastOnPage(d, c)
    {
      SelectedIff(d.snap, d.p, c);
    }
    SelectedAllHas(d.snap, d.p.drClusters, cluster);
  }

  lemma {:induction false} RunOnlyRemoves(h: Hub, deletions: seq<Deletion>)
    ensures CleanRun(h, deletions).drClusters <= h.drClusters
    decreases |deletions|
  {
    if deletions == [] {
    } else {
      var d := deletions[0];
      AllOnlyRemoves(h, d.snap, d.p.drClusters, d.ok);
      RunOnlyRemoves(CleanAll(h, d.snap, d.p.drClusters, d.ok).0, deletions[1..]);
    }
  }

  lemma {:induction false} AllOnlyRemoves(h: Hub, snap: Snapshot, clusters: seq<string>, ok: Network)
    ensures CleanAll(h, snap, clusters, ok).0.drClusters <= h.drClusters
    decreases |clusters|
  {
    if clusters == [] {
    } else {
      var dc := Selected(snap, clusters[0]);
      var next := if dc.Some? then CleanOne(h, dc.value, ok).0 else h;
      AllOnlyRemoves(next, snap, clusters[1..], ok);
    }
  }

  /** A run of completed deletions removes a DRCluster exactly if one of them was made on a page where
      its policy was the last to list it. */
  lemma {:induction false} RunRemovesIff(h: Hub, deletions: seq<Deletion>, cluster: string)
    requires AllComplete(h, deletions) && cluster in h.drClusters
    requires forall d :: d in deletions ==> Shown(d)
    ensures cluster !in CleanRun(h, deletions).drClusters <==> exists d :: d in deletions && LastOnPage(d, cluster)
    decreases |deletions|
  {
    if deletions == [] {
    } else {
      var d, rest := deletions[0], deletions[1..];
      assert forall x :: x in deletions <==> x == d || x in rest;
      var next := CleanAll(h, d.snap, d.p.drClusters, d.ok).0;
      DeletionRemovesIff(h, d, cluster);
      if cluster in next.drClusters {
        RunRemovesIff(next, rest, cluster);
      } else {
        RunOnlyRemoves(next, rest);
      }
    }
  }

  /** The only two policies over a cluster, both deleted from a page that shows both: each deletion
      completes, no policy is left, and the cluster stays. */
  lemma StalePagesLeaveCluster(ok: Network)
    returns (h: Hub, deletions: seq<Deletion>, cluster: string)
    ensures AllComplete(h, deletions) && |deletions| == 2 && deletions[0].snap == deletions[1].snap
    ensures forall d :: d in deletions ==> Shown(d)
    ensures forall q :: q in deletions[0].snap.policies <==> q == deletions[0].p || q == deletions[1].p
    ensures cluster in deletions[0].p.drClusters && cluster in deletions[1].p.drClusters
    ensures !Paired(deletions[0].snap.mirrorPeers, cluster)
    ensures cluster in h.drClusters && cluster in CleanRun(h, deletions).drClusters
  {
    cluster := "a";
    var p, q := DRPolicy("p", ["a"]), DRPolicy("q", ["a"]);
    assert p.name != q.name;
    var snap := Snapshot([p, q], [DrCluster("a", "s")], []);
    h := Hub({"a"}, [Profile("s", map[])], 0);
    var d, e := Deletion(p, snap, ok), Deletion(q, snap, ok);
    deletions := [d, e];
    assert snap.policies[0] == p && snap.policies[1] == q;
    SelectedIff(snap, p, "a");
    assert Selected(snap, "a").None?;
    assert p.drClusters[1..] == [] && q.drClusters[1..] == [];
    assert CleanAll(h, snap, p.drClusters, ok) == CleanAll(h, snap, [], ok) == (h, true);
    assert CleanAll(h, snap, q.drClusters, ok) == CleanAll(h, snap, [], ok) == (h, true);
    assert deletions[1..] == [e] && [e][1..] == [];
    assert AllComplete(h, [e]);
    RunRemovesIff(h, deletions, "a");
  }
}
