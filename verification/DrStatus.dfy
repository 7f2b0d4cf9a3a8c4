/**
 The DR status of a protected application as the clock advances (packages/mco/utils/dr-status.ts,
 packages/mco/hooks/useProtectedAppsByCluster.ts).
 */
module DrStatus {
  import opened Options
  import opened Strings
  import opened SyncInterval

  datatype Phase =
    | Initiating | Deploying | Deployed | FailingOver | Relocating | FailedOver | Relocated | Deleting | WaitForUser
    | NoPhase

  datatype Progression = Completed | WaitOnUserToCleanUp | TestingFailover | OtherProgression

  datatype Action = Failover | Relocate

  datatype ConditionStatus = True | False | Unknown

  datatype Reason = Progressing | Error | UnknownReason | OtherReason

  datatype Condition = Condition(status: ConditionStatus, reason: Reason)

  datatype Status =
    | StatusWaitForUser | StatusDeleting | StatusFailingOver | StatusRelocating | StatusFailedOver | StatusRelocated
    | StatusWaitOnUserToCleanUp | StatusCritical | StatusWarning | StatusHealthy | StatusProtecting
    | StatusProtectionError | StatusTestingFailover | StatusUnknown

  /** What the DRPC, its view and its policy say; times are in seconds since the epoch. */
  datatype Protected = Protected(
    isCleanupRequired: Option<bool>,
    phase: Phase,
    progression: Option<Progression>,
    lastGroupSyncTime: Option<real>,
    condition: Option<Condition>,
    schedulingInterval: Option<string>,
    actionStartTime: Option<real>,
    action: Option<Action>,
    dryRun: bool)

  predicate IsProgressionActive(p: Protected) {
    p.progression.Some? && p.progression.value != Completed
  }

  function IsWithinSyncThreshold(p: Protected, now: real): bool {
    if p.actionStartTime.None? || p.schedulingInterval.None? || p.schedulingInterval.value == "" then true
    else if p.schedulingInterval.value == "0m" then true
    else !AtLeast(VolumeReplicationHealth(now - p.actionStartTime.value, p.schedulingInterval).1, 3.0)
  }

  function ShouldShowProtecting(cleanup: bool, p: Protected, now: real): bool {
    if cleanup || p.condition.None? then false
    else if p.lastGroupSyncTime.Some? then false
    else
      var Condition(status, reason) := p.condition.value;
      if status == Unknown || reason == UnknownReason then true
      else if status == False && reason == Progressing then
        (if p.phase == Deployed then IsWithinSyncThreshold(p, now) else true)
      else false
  }

  predicate ShouldShowProtectionError(condition: Option<Condition>) {
    condition.Some? && condition.value.reason == Error && condition.value.status in {True, False}
  }

  function FromHealths(volume: Option<Health>, kube: Option<Health>): Status {
    if volume == Some(CRITICAL) || kube == Some(CRITICAL) then StatusCritical
    else if volume == Some(WARNING) || kube == Some(WARNING) then StatusWarning
    else if volume == Some(HEALTHY) || kube == Some(HEALTHY) then StatusHealthy
    else StatusUnknown
  }

  predicate Cleanup(p: Protected) {
    if p.isCleanupRequired.Some? then p.isCleanupRequired.value else p.progression == Some(WaitOnUserToCleanUp)
  }

  predicate Testing(p: Protected) {
    p.dryRun && p.progression == Some(TestingFailover)
  }

  /** A completed failover or relocation is shown until it has synced, unless nothing is replicated,
      and while its progression is active. */
  predicate ShowsCompletion(p: Protected) {
    (p.lastGroupSyncTime.None? && p.schedulingInterval != Some("0m")) || IsProgressionActive(p)
  }

  /** The priority chain. */
  function GetDRStatus(p: Protected, volume: Option<Health>, kube: Option<Health>, now: real): Status {
    var cleanup := Cleanup(p);
    if cleanup then StatusWaitOnUserToCleanUp
    else if Testing(p) then StatusTestingFailover
    else if p.phase == WaitForUser then StatusWaitForUser
    else if p.phase == Deleting then StatusDeleting
    else if p.phase == FailingOver then StatusFailingOver
    else if p.phase == Relocating then StatusRelocating
    else if p.phase in {Initiating, Deploying} && p.action == Some(Failover) then StatusFailingOver
    else if p.phase in {Initiating, Deploying} && p.action == Some(Relocate) then StatusRelocating
    else if p.phase in {FailedOver, Relocated} && ShowsCompletion(p) then
      (if p.phase == FailedOver then StatusFailedOver else StatusRelocated)
    else if ShouldShowProtecting(cleanup, p, now) && (IsProgressionActive(p) || p.phase == Deployed) then
      StatusProtecting
    else if p.phase == Deploying && ShouldShowProtectionError(p.condition) then StatusProtectionError
    else if !IsProgressionActive(p) && ShouldShowProtectionError(p.condition) then StatusProtectionError
    else FromHealths(volume, kube)
  }

  // ----- when each status is shown, by the fields -----

  ghost predicate NeedsCleanup(p: Protected) {
    p.isCleanupRequired == Some(true) || (p.isCleanupRequired.None? && p.progression == Some(WaitOnUserToCleanUp))
  }

  ghost predicate IsTest(p: Protected) {
    p.dryRun && p.progression == Some(TestingFailover)
  }

  ghost predicate InProgress(p: Protected) {
    p.progression.Some? && p.progression != Some(Completed)
  }

  /** The phase decides nothing: no cleanup and no test, no transition shown, no completion to show. */
  ghost predicate Undecided(p: Protected) {
    && !NeedsCleanup(p) && !IsTest(p)
    && (|| p.phase in {Deployed, NoPhase}
        || (p.phase in {Initiating, Deploying} && p.action.None?)
        || (p.phase in {FailedOver, Relocated}
            && !InProgress(p) && (p.lastGroupSyncTime.Some? || p.schedulingInterval == Some("0m"))))
  }

  /** The window of a deployed application: three intervals from the start of its action, if both are known. */
  ghost predicate InWindow(p: Protected, now: real) {
    && p.actionStartTime.Some? && p.schedulingInterval.Some? && p.schedulingInterval.value !in ["", "0m"]
    ==> VolumeReplicationHealth(now - p.actionStartTime.value, p.schedulingInterval).0 != CRITICAL
  }

  /** Nothing has synced yet, and the condition says that protection is under way; for a deployed
      application only within the window. */
  ghost predicate UnderWay(p: Protected, now: real) {
    && p.lastGroupSyncTime.None? && p.condition.Some?
    && (|| p.condition.value.status == Unknown || p.condition.value.reason == UnknownReason
        || (p.condition.value == Condition(False, Progressing) && (p.phase == Deployed ==> InWindow(p, now))))
  }

  ghost predicate Protecting(p: Protected, now: real) {
    Undecided(p) && UnderWay(p, now) && (InProgress(p) || p.phase == Deployed)
  }

  ghost predicate ProtectionFails(p: Protected) {
    && Undecided(p) && p.condition.Some? && p.condition.value.reason == Error && p.condition.value.status != Unknown
    && (p.phase == Deploying || !InProgress(p))
  }

  /** Only the healths are left to decide. */
  ghost predicate HealthDecides(p: Protected, now: real) {
    Undecided(p) && !Protecting(p, now) && !ProtectionFails(p)
  }

  lemma ChainReads(p: Protected, now: real)
    ensures Cleanup(p) <==> NeedsCleanup(p)
    ensures Testing(p) <==> IsTest(p)
    ensures IsProgressionActive(p) <==> InProgress(p)
    ensures IsWithinSyncThreshold(p, now) <==> InWindow(p, now)
    ensures !Cleanup(p) ==> (ShouldShowProtecting(Cleanup(p), p, now) <==> UnderWay(p, now))
    ensures p.action.Some? ==> p.action.value.Failover? || p.action.value.Relocate?
  {
  }

  /** Exactly when each status is shown, in terms of the inputs rather than of the order of the checks. */
  lemma WhenShown(p: Protected, volume: Option<Health>, kube: Option<Health>, now: real)
    ensures var s := GetDRStatus(p, volume, kube, now);
            var acting := p.phase in {Initiating, Deploying};
            var normal := !NeedsCleanup(p) && !IsTest(p);
            var completed := InProgress(p) || (p.lastGroupSyncTime.None? && p.schedulingInterval != Some("0m"));
            && (s == StatusWaitOnUserToCleanUp <==> NeedsCleanup(p))
            && (s == StatusTestingFailover <==> !NeedsCleanup(p) && IsTest(p))
            && (s == StatusWaitForUser <==> normal && p.phase == WaitForUser)
            && (s == StatusDeleting <==> normal && p.phase == Deleting)
            && (s == StatusFailingOver <==>
                  normal && (p.phase == FailingOver || (acting && p.action == Some(Failover))))
            && (s == StatusRelocating <==>
                  normal && (p.phase == Relocating || (acting && p.action == Some(Relocate))))
            && (s == StatusFailedOver <==> normal && p.phase == FailedOver && completed)
            && (s == StatusRelocated <==> normal && p.phase == Relocated && completed)
  {
    ChainReads(p, now);
  }

  lemma WhenProtecting(p: Protected, volume: Option<Health>, kube: Option<Health>, now: real)
    ensures GetDRStatus(p, volume, kube, now) == StatusProtecting <==> Protecting(p, now)
    ensures GetDRStatus(p, volume, kube, now) == StatusProtectionError <==> ProtectionFails(p) && !Protecting(p, now)
  {
    ChainReads(p, now);
  }

  lemma ChainEnds(p: Protected, volume: Option<Health>, kube: Option<Health>, now: real)
    requires HealthDecides(p, now)
    ensures GetDRStatus(p, volume, kube, now) == FromHealths(volume, kube)
  {
    ChainReads(p, now);
  }

  lemma ChainEndsEarlier(p: Protected, volume: Option<Health>, kube: Option<Health>, now: real)
    requires !HealthDecides(p, now)
    ensures GetDRStatus(p, volume, kube, now) !in {StatusCritical, StatusWarning, StatusHealthy, StatusUnknown}
  {
    ChainReads(p, now);
    WhenProtecting(p, volume, kube, now);
  }

  /** Where neither phase nor protection decides: Critical if one of the two healths is, else Warning
      if one is, else Healthy if there is one, else Unknown. */
  lemma WhenHealthShown(p: Protected, volume: Option<Health>, kube: Option<Health>, now: real)
    ensures var s := GetDRStatus(p, volume, kube, now);
            var critical := volume == Some(CRITICAL) || kube == Some(CRITICAL);
            var warning := volume == Some(WARNING) || kube == Some(WARNING);
            && (s == StatusCritical <==> HealthDecides(p, now) && critical)
            && (s == StatusWarning <==> HealthDecides(p, now) && !critical && warning)
            && (s == StatusHealthy <==> HealthDecides(p, now) && !critical && !warning && (volume.Some? || kube.Some?))
            && (s == StatusUnknown <==> HealthDecides(p, now) && volume.None? && kube.None?)
  {
    if HealthDecides(p, now) {
      ChainEnds(p, volume, kube, now);
    } else {
      ChainEndsEarlier(p, volume, kube, now);
    }
    HealthsAre(volume);
    HealthsAre(kube);
  }

  lemma HealthsAre(h: Option<Health>)
    ensures h == None || h == Some(CRITICAL) || h == Some(WARNING) || h == Some(HEALTHY)
  {
    if h.Some? {
      assert h.value.CRITICAL? || h.value.WARNING? || h.value.HEALTHY?;
    }
  }

  // ----- the status at a moment -----

  /** The further inputs of the two health computations. */
  datatype App = App(
    protected_: Protected,
    replicationType: Option<ReplicationType>,      // of the policy, if it is found
    captureInterval: Option<string>,               // of the kube objects, if they are protected
    lastKubeObjectProtectionTime: Option<real>)

  function StatusAt(app: App, now: real): Status {
    var p := app.protected_;
    var volume := ReplicationHealth(p.lastGroupSyncTime, p.schedulingInterval, app.replicationType, now);
    var kube :=
      if app.captureInterval.Some? && app.captureInterval.value != "" then
        Some(ReplicationHealth(app.lastKubeObjectProtectionTime, app.captureInterval, None, now))
      else None;
    GetDRStatus(p, Some(volume), kube, now)
  }

  /** The order in which a status may advance by time alone; other statuses have no rank. */
  function Rank(s: Status): Option<nat> {
    match s
    case StatusProtecting => Some(0)
    case StatusHealthy => Some(1)
    case StatusWarning => Some(2)
    case StatusCritical => Some(3)
    case _ => None
  }

  ghost predicate Advances(before: Status, after: Status) {
    if Rank(before).Some? then Rank(after).Some? && Rank(before).value <= Rank(after).value else after == before
  }

  lemma WindowCloses(p: Protected, cleanup: bool, now: real, later: real)
    requires now <= later && ShouldShowProtecting(cleanup, p, later)
    ensures ShouldShowProtecting(cleanup, p, now)
  {
    if p.actionStartTime.Some? {
      HealthWorsens(now - p.actionStartTime.value, later - p.actionStartTime.value, p.schedulingInterval);
    }
  }

  lemma HealthsWorsen(volume: Health, volume': Health, kube: Option<Health>, kube': Option<Health>)
    requires HealthRank(volume) <= HealthRank(volume')
    requires kube.Some? <==> kube'.Some?
    requires kube.Some? ==> HealthRank(kube.value) <= HealthRank(kube'.value)
    ensures Rank(FromHealths(Some(volume), kube)).Some? && Rank(FromHealths(Some(volume), kube)).value > 0
    ensures Advances(FromHealths(Some(volume), kube), FromHealths(Some(volume'), kube'))
  {
  }

  /** Through the chain, only the protection window and the healths depend on the clock. */
  lemma ChainAdvances(
    p: Protected, volume: Health, volume': Health, kube: Option<Health>, kube': Option<Health>, now: real, later: real)
    requires now <= later && HealthRank(volume) <= HealthRank(volume')
    requires kube.Some? <==> kube'.Some?
    requires kube.Some? ==> HealthRank(kube.value) <= HealthRank(kube'.value)
    ensures Advances(GetDRStatus(p, Some(volume), kube, now), GetDRStatus(p, Some(volume'), kube', later))
  {
    HealthsWorsen(volume, volume', kube, kube');
    if ShouldShowProtecting(Cleanup(p), p, later) {
      WindowCloses(p, Cleanup(p), now, later);
    }
  }

  /** For a fixed DRPC and policy the status never moves backwards in
      Protecting < Healthy < Warning < Critical, and any other status stays as it is. */
  lemma StatusAdvances(app: App, now: real, later: real)
    requires now <= later
    ensures Advances(StatusAt(app, now), StatusAt(app, later))
  {
    var p := app.protected_;
    ReplicationHealthWorsens(p.lastGroupSyncTime, p.schedulingInterval, app.replicationType, now, later);
    ReplicationHealthWorsens(app.lastKubeObjectProtectionTime, app.captureInterval, None, now, later);
    var kube := app.captureInterval.Some? && app.captureInterval.value != "";
    var kube1 :=
      if kube then Some(ReplicationHealth(app.lastKubeObjectProtectionTime, app.captureInterval, None, now)) else None;
    var kube2 :=
      if kube then Some(ReplicationHealth(app.lastKubeObjectProtectionTime, app.captureInterval, None, later))
      else None;
    ChainAdvances(p, ReplicationHealth(p.lastGroupSyncTime, p.schedulingInterval, app.replicationType, now),
                  ReplicationHealth(p.lastGroupSyncTime, p.schedulingInterval, app.replicationType, later),
                  kube1, kube2, now, later);
  }

  /** Readings of an advancing clock give a chain: what was reached is never left again. */
  lemma {:induction false} RunAdvances(app: App, clock: seq<real>, i: nat, j: nat)
    requires i <= j < |clock|
    requires forall k :: 0 <= k < |clock| - 1 ==> clock[k] <= clock[k + 1]
    ensures clock[i] <= clock[j]
    ensures Advances(StatusAt(app, clock[i]), StatusAt(app, clock[j]))
    decreases j - i
  {
    if i == j {
    } else {
      RunAdvances(app, clock, i, j - 1);
      assert clock[j - 1] <= clock[j - 1 + 1];
    }
    StatusAdvances(app, clock[i], clock[j]);
  }

  /** An initial deployment that never syncs is Protecting for exactly three intervals and then
      Critical at once: without a sync there is no Healthy and no Warning in between. */
  lemma UnsyncedDeployment(app: App, n: nat, now: real)
    requires var p := app.protected_;
             && p.isCleanupRequired == Some(false) && p.phase == Deployed
             && (p.dryRun ==> p.progression != Some(TestingFailover))
             && p.condition == Some(Condition(False, Progressing)) && p.lastGroupSyncTime.None?
             && p.actionStartTime.Some?
             && p.schedulingInterval.Some? && p.schedulingInterval.value !in ["", "0m"]
             && ToSeconds(p.schedulingInterval) == Seconds(n) && 0 < n
             && 3.0 * n as real <= LEAST_SECONDS_IN_PROMETHEUS
    requires app.replicationType != Some(SYNC)
    ensures StatusAt(app, now)
         == if now - app.protected_.actionStartTime.value < 3.0 * n as real then StatusProtecting else StatusCritical
  {
    var p := app.protected_;
    HealthThresholds(now - p.actionStartTime.value, p.schedulingInterval);
    HealthThresholds(LEAST_SECONDS_IN_PROMETHEUS, p.schedulingInterval);
    QuotientCompares(now - p.actionStartTime.value, n as real, 3.0);
  }

  /** An application in its health phase: Critical from three intervals after its last sync on,
      Warning strictly between two and three, Healthy up to two. */
  lemma SyncedApplication(app: App, n: nat, now: real)
    requires var p := app.protected_;
             && p.isCleanupRequired == Some(false) && p.phase == Deployed
             && (p.dryRun ==> p.progression != Some(TestingFailover))
             && !ShouldShowProtectionError(p.condition) && p.lastGroupSyncTime.Some?
             && ToSeconds(p.schedulingInterval) == Seconds(n) && 0 < n && p.schedulingInterval != Some("0m")
    requires app.replicationType != Some(SYNC) && app.captureInterval.None?
    ensures var elapsed, interval := now - app.protected_.lastGroupSyncTime.value, n as real;
            StatusAt(app, now)
            == if elapsed >= 3.0 * interval then StatusCritical
               else if elapsed > 2.0 * interval then StatusWarning
               else StatusHealthy
  {
    HealthThresholds(now - app.protected_.lastGroupSyncTime.value, app.protected_.schedulingInterval);
  }

  /** Where the healths decide, the worse of both is shown: Critical from three intervals after the last
      sync, or three capture intervals after the last capture, on; otherwise Warning after two of
      either; otherwise Healthy. Volumes of a synchronous policy and kube objects that are not
      protected do not count; what never happened is as old as 1697788182 seconds. */
  lemma HealthsByThresholds(app: App, n: nat, u: string, m: nat, v: string, now: real)
    requires n > 0 && m > 0 && (u == "m" || u == "h" || u == "d") && (v == "m" || v == "h" || v == "d")
    requires HealthDecides(app.protected_, now) && app.protected_.schedulingInterval == Some(Decimal(n) + u)
    requires app.captureInterval.None? || app.captureInterval == Some(Decimal(m) + v)
    ensures var synced, captured := app.protected_.lastGroupSyncTime, app.lastKubeObjectProtectionTime;
            var elapsed := if synced.Some? then now - synced.value else 1697788182.0;
            var age := if captured.Some? then now - captured.value else 1697788182.0;
            var interval := ((if u == "d" then 86400 else if u == "h" then 3600 else 60) * n) as real;
            var capture := ((if v == "d" then 86400 else if v == "h" then 3600 else 60) * m) as real;
            var monitored, protects := app.replicationType != Some(SYNC), app.captureInterval.Some?;
            StatusAt(app, now)
            == if (monitored && elapsed >= 3.0 * interval) || (protects && age >= 3.0 * capture) then StatusCritical
               else if (monitored && elapsed > 2.0 * interval) || (protects && age > 2.0 * capture) then StatusWarning
               else StatusHealthy
  {
    var p := app.protected_;
    ReplicationHealthIs(p.lastGroupSyncTime, n, u, app.replicationType, now);
    ReplicationHealthIs(app.lastKubeObjectProtectionTime, m, v, None, now);
    assert Decimal(m) + v != "";
    var volume := ReplicationHealth(p.lastGroupSyncTime, p.schedulingInterval, app.replicationType, now);
    var kube :=
      if app.captureInterval.None? then None
      else Some(ReplicationHealth(app.lastKubeObjectProtectionTime, app.captureInterval, None, now));
    assert StatusAt(app, now) == GetDRStatus(p, Some(volume), kube, now);
    WhenHealthShown(p, Some(volume), kube, now);
  }

  /** A deployed, synced application is such a case. */
  lemma SyncedIsDecidedByHealth(p: Protected, now: real)
    requires p.isCleanupRequired == Some(false) && p.phase == Deployed && p.lastGroupSyncTime.Some?
    requires p.dryRun ==> p.progression != Some(TestingFailover)
    requires p.condition.Some? ==> p.condition.value.reason != Error
    ensures HealthDecides(p, now)
  {
  }
}
