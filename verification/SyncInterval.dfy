/**
 Scheduling intervals and replication health (packages/mco/utils/disaster-recovery.tsx,
 packages/shared/src/details-page/datetime.ts). Seconds are exact reals.
 */
module SyncInterval {
  import opened Options
  import opened Strings

  // ----- parsing -----

  /** A character of the class that the unit part of the pattern repeats. */
  predicate IsUnitChar(c: char) {
    c == 'd' || c == 'h' || c == 'm' || c == '|'
  }

  /** Length of the longest prefix of digits, or of unit characters. */
  function RunLength(s: string, digits: bool): (n: nat)
    ensures n <= |s|
    ensures forall k :: 0 <= k < n ==> if digits then IsDigit(s[k]) else IsUnitChar(s[k])
    ensures n < |s| ==> if digits then !IsDigit(s[n]) else !IsUnitChar(s[n])
    ensures s != "" && (if digits then IsDigit(s[0]) else IsUnitChar(s[0])) ==> n > 0
  {
    if s == "" || !(if digits then IsDigit(s[0]) else IsUnitChar(s[0])) then 0 else 1 + RunLength(s[1..], digits)
  }

  /** All matches of the pattern: runs of digits and runs of unit characters, the rest skipped. */
  function Tokens(s: string): seq<string> {
    if s == "" then []
    else if IsDigit(s[0]) then [s[..RunLength(s, true)]] + Tokens(s[RunLength(s, true)..])
    else if IsUnitChar(s[0]) then [s[..RunLength(s, false)]] + Tokens(s[RunLength(s, false)..])
    else Tokens(s[1..])
  }

  /** A number, or NaN. */
  datatype Numeric = Value(n: nat) | NaN

  function ToNumber(token: string): Numeric {
    if AllDigits(token) then Value(Number(token)) else NaN
  }

  function ParseSyncInterval(interval: Option<string>): (string, Numeric) {
    var tokens := if interval.Some? then Tokens(interval.value) else [];
    (if |tokens| > 1 then tokens[1] else "m", if |tokens| > 0 then ToNumber(tokens[0]) else Value(0))
  }

  // ----- the interval in seconds -----

  /** `FalseValue` is what the chain of `&&` and `||` yields when no operand is truthy. */
  datatype Threshold = Seconds(n: nat) | NotANumber | FalseValue

  /** A falsy number of days or hours falls through to `false`, one of minutes does not. */
  function ToSeconds(interval: Option<string>): Threshold {
    var (unit, x) := ParseSyncInterval(interval);
    if unit == "d" && x.Value? && x.n != 0 then Seconds(86400 * x.n)
    else if unit == "h" && x.Value? && x.n != 0 then Seconds(3600 * x.n)
    else if unit == "m" then (if x.Value? then Seconds(60 * x.n) else NotANumber)
    else FalseValue
  }

  // ----- health -----

  datatype Health = HEALTHY | WARNING | CRITICAL

  /** A quotient of floating-point numbers, with NaN already replaced by 0. */
  datatype Ratio = Finite(r: real) | PlusInfinity | MinusInfinity

  /** `sla / threshold || 0`, where dividing by `false` is dividing by zero. */
  function SlaRatio(sla: real, threshold: Threshold): Ratio {
    match threshold
    case Seconds(n) => if n == 0 then Finite(0.0) else Finite(sla / n as real)
    case NotANumber => Finite(0.0)
    case FalseValue => if sla > 0.0 then PlusInfinity else if sla < 0.0 then MinusInfinity else Finite(0.0)
  }

  predicate AtLeast(x: Ratio, bound: real) {
    match x
    case Finite(r) => r >= bound
    case PlusInfinity => true
    case MinusInfinity => false
  }

  predicate Above(x: Ratio, bound: real) {
    match x
    case Finite(r) => r > bound
    case PlusInfinity => true
    case MinusInfinity => false
  }

  function HealthOf(slaDiff: Ratio): Health {
    if AtLeast(slaDiff, 3.0) then CRITICAL
    else if Above(slaDiff, 2.0) && !AtLeast(slaDiff, 3.0) then WARNING
    else HEALTHY
  }

  function VolumeReplicationHealth(sla: real, interval: Option<string>): (Health, Ratio) {
    var threshold := ToSeconds(interval);
    if threshold == Seconds(0) then (HEALTHY, Finite(0.0))
    else (HealthOf(SlaRatio(sla, threshold)), SlaRatio(sla, threshold))
  }

  datatype ReplicationType = ASYNC | SYNC

  const LEAST_SECONDS_IN_PROMETHEUS := 1697788182.0

  function ReplicationHealth(
    lastSyncTime: Option<real>, interval: Option<string>, kind: Option<ReplicationType>, now: real): Health
  {
    if kind == Some(SYNC) || interval == Some("0m") then HEALTHY
    else
      var seconds := if lastSyncTime.Some? then now - lastSyncTime.value else LEAST_SECONDS_IN_PROMETHEUS;
      VolumeReplicationHealth(seconds, interval).0
  }

  // ----- parsing gives back what was written -----

  predicate IsUnit(u: string) {
    u == "m" || u == "h" || u == "d"
  }

  function UnitSeconds(u: string): nat {
    if u == "d" then 86400 else if u == "h" then 3600 else 60
  }

  lemma {:induction false} RunOfDigits(s: string, rest: string)
    requires AllDigits(s) && (rest == "" || !IsDigit(rest[0]))
    ensures RunLength(s + rest, true) == |s|
  {
    if s == "" {
      assert s + rest == rest;
    } else {
      assert (s + rest)[1..] == s[1..] + rest;
      RunOfDigits(s[1..], rest);
    }
  }

  /** Decimal digits followed by a unit parse to that number and unit. */
  lemma ParseWritten(n: nat, u: string)
    requires IsUnit(u)
    ensures ParseSyncInterval(Some(Decimal(n) + u)) == (u, Value(n))
  {
    var s := Decimal(n) + u;
    RunOfDigits(Decimal(n), u);
    assert s[..|Decimal(n)|] == Decimal(n) && s[|Decimal(n)|..] == u;
    assert RunLength(u[1..], false) == 0;
    assert RunLength(u, false) == 1;
    assert u[..1] == u && u[1..] == "";
    assert Tokens(u) == [u] + Tokens("");
    assert Tokens(s) == [Decimal(n), u];
    NumberOfDecimal(n);
  }

  lemma QuotientCompares(x: real, n: real, b: real)
    requires n > 0.0
    ensures x / n >= b <==> x >= b * n
    ensures x / n > b <==> x > b * n
  {
    var q := x / n;
    assert q * n == x;
    assert q >= b ==> q * n >= b * n;
    assert q < b ==> q * n < b * n;
    assert q > b ==> q * n > b * n;
    assert q <= b ==> q * n <= b * n;
  }

  /** The health of a positive interval, by exact comparison with two and three intervals. */
  lemma HealthThresholds(sla: real, interval: Option<string>)
    requires ToSeconds(interval).Seconds? && ToSeconds(interval).n > 0
    ensures var n, h := ToSeconds(interval).n as real, VolumeReplicationHealth(sla, interval).0;
            && (h == CRITICAL <==> sla >= 3.0 * n)
            && (h == WARNING <==> 2.0 * n < sla < 3.0 * n)
            && (h == HEALTHY <==> sla <= 2.0 * n)
  {
    var n := ToSeconds(interval).n as real;
    QuotientCompares(sla, n, 3.0);
    QuotientCompares(sla, n, 2.0);
  }

  lemma WrittenSeconds(n: nat, u: string)
    requires IsUnit(u) && n > 0
    ensures ToSeconds(Some(Decimal(n) + u)) == Seconds(n * UnitSeconds(u))
  {
    ParseWritten(n, u);
  }

  lemma SameSecondsSameHealth(sla: real, i: Option<string>, j: Option<string>)
    requires ToSeconds(i) == ToSeconds(j)
    ensures VolumeReplicationHealth(sla, i) == VolumeReplicationHealth(sla, j)
  {
  }

  /** Equal durations written in different units always give the same health. */
  lemma UnitsAgree(a: nat, u: string, b: nat, v: string, sla: real)
    requires IsUnit(u) && IsUnit(v) && a > 0 && b > 0
    requires a * UnitSeconds(u) == b * UnitSeconds(v)
    ensures VolumeReplicationHealth(sla, Some(Decimal(a) + u)) == VolumeReplicationHealth(sla, Some(Decimal(b) + v))
  {
    WrittenSeconds(a, u);
    WrittenSeconds(b, v);
    SameSecondsSameHealth(sla, Some(Decimal(a) + u), Some(Decimal(b) + v));
  }

  /** Zero hours and zero days are not zero: any positive elapsed time is critical. */
  lemma ZeroHoursIsCritical(u: string, sla: real)
    requires IsUnit(u)
    ensures VolumeReplicationHealth(sla, Some(Decimal(0) + u)).0
         == if u != "m" && sla > 0.0 then CRITICAL else HEALTHY
  {
    ParseWritten(0, u);
  }

  // ----- health over time -----

  function HealthRank(h: Health): nat {
    match h
    case HEALTHY => 1
    case WARNING => 2
    case CRITICAL => 3
  }

  /** Health never improves as time passes, whatever the interval says. */
  lemma HealthWorsens(sla: real, later: real, interval: Option<string>)
    requires sla <= later
    ensures HealthRank(VolumeReplicationHealth(sla, interval).0)
         <= HealthRank(VolumeReplicationHealth(later, interval).0)
    ensures AtLeast(VolumeReplicationHealth(sla, interval).1, 3.0) ==>
              AtLeast(VolumeReplicationHealth(later, interval).1, 3.0)
  {
    var threshold := ToSeconds(interval);
    if threshold.Seconds? && threshold.n > 0 {
      HealthThresholds(sla, interval);
      HealthThresholds(later, interval);
      QuotientCompares(sla, threshold.n as real, 3.0);
      QuotientCompares(later, threshold.n as real, 3.0);
    }
  }

  lemma ReplicationHealthWorsens(
    lastSyncTime: Option<real>, interval: Option<string>, kind: Option<ReplicationType>, now: real, later: real)
    requires now <= later
    ensures HealthRank(ReplicationHealth(lastSyncTime, interval, kind, now))
         <= HealthRank(ReplicationHealth(lastSyncTime, interval, kind, later))
  {
    if lastSyncTime.Some? {
      HealthWorsens(now - lastSyncTime.value, later - lastSyncTime.value, interval);
    }
  }

  // ----- written intervals -----

  /** The health under `n` units, by exact comparison with two and three times their seconds. */
  lemma WrittenHealth(n: nat, u: string, sla: real)
    requires n > 0 && (u == "m" || u == "h" || u == "d")
    ensures var seconds := (if u == "d" then 86400 else if u == "h" then 3600 else 60) * n;
            var h := VolumeReplicationHealth(sla, Some(Decimal(n) + u)).0;
            && (h == CRITICAL <==> sla >= 3.0 * seconds as real)
            && (h == WARNING <==> 2.0 * seconds as real < sla < 3.0 * seconds as real)
            && (h == HEALTHY <==> sla <= 2.0 * seconds as real)
  {
    ParseWritten(n, u);
    HealthThresholds(sla, Some(Decimal(n) + u));
  }

  lemma WrittenNotZero(n: nat, u: string)
    requires n > 0 && IsUnit(u)
    ensures Decimal(n) + u != "0m"
  {
    ParseWritten(n, u);
    ParseWritten(0, "m");
    assert Decimal(0) + "m" == "0m";
  }

  lemma ReplicationReads(lastSyncTime: Option<real>, interval: Option<string>, kind: Option<ReplicationType>, now: real)
    ensures kind == Some(SYNC) || interval == Some("0m") ==>
              ReplicationHealth(lastSyncTime, interval, kind, now) == HEALTHY
    ensures kind != Some(SYNC) && interval != Some("0m") ==>
              ReplicationHealth(lastSyncTime, interval, kind, now)
              == VolumeReplicationHealth(
                   if lastSyncTime.Some? then now - lastSyncTime.value else 1697788182.0, interval).0
  {
  }

  /** Replication health: healthy where nothing is monitored; otherwise by the time since the last
      sync, which counts as 1697788182 seconds if there was none. */
  lemma ReplicationHealthIs(lastSyncTime: Option<real>, n: nat, u: string, kind: Option<ReplicationType>, now: real)
    requires n > 0 && (u == "m" || u == "h" || u == "d")
    ensures var h := ReplicationHealth(lastSyncTime, Some(Decimal(n) + u), kind, now);
            var elapsed := if lastSyncTime.Some? then now - lastSyncTime.value else 1697788182.0;
            var seconds := (if u == "d" then 86400 else if u == "h" then 3600 else 60) * n;
            if kind == Some(SYNC) then h == HEALTHY
            else
              && (h == CRITICAL <==> elapsed >= 3.0 * seconds as real)
              && (h == WARNING <==> 2.0 * seconds as real < elapsed < 3.0 * seconds as real)
              && (h == HEALTHY <==> elapsed <= 2.0 * seconds as real)
  {
    var interval := Some(Decimal(n) + u);
    WrittenNotZero(n, u);
    ReplicationReads(lastSyncTime, interval, kind, now);
    if kind != Some(SYNC) {
      WrittenHealth(n, u, if lastSyncTime.Some? then now - lastSyncTime.value else 1697788182.0);
    }
  }

  /** An interval of zero minutes is not monitored. */
  lemma ZeroMinutesIsHealthy(lastSyncTime: Option<real>, kind: Option<ReplicationType>, now: real)
    ensures ReplicationHealth(lastSyncTime, Some("0m"), kind, now) == HEALTHY
  {
  }
}
