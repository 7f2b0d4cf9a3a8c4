/**
 Minimum resources of the resource profiles (packages/odf/utils/ocs.ts,
 packages/odf/constants/common.ts). An s390x call overwrites the OSD's CPU in the shared table.
 */
module ResourceProfiles {

  datatype Profile = Lean | Balanced | Performance

  datatype Requirement = Requirement(minCpu: int, minMem: int, osdCpu: real, osdMem: int)

  datatype Call = Call(profile: Profile, osds: int, s390x: bool, nfs: bool)

  /** The table as the module declares it. */
  function Fresh(p: Profile): Requirement {
    match p
    case Lean => Requirement(24, 72, 1.5, 3)
    case Balanced => Requirement(30, 72, 2.0, 5)
    case Performance => Requirement(45, 96, 4.0, 8)
  }

  function S390xMinCpu(p: Profile): int {
    match p
    case Lean => 12
    case Balanced => 18
    case Performance => 24
  }

  function S390xOsdCpu(p: Profile): real {
    match p
    case Lean => 0.75
    case Balanced => 1.0
    case Performance => 2.0
  }

  const NFS_CPU := 6
  const NFS_MEM := 16
  const NFS_S390X_CPU := 3

  function Ceil(x: real): int {
    -((-x).Floor)
  }

  /** What a call requires, given the OSD CPU that the table holds for its profile at the time the
      OSDs are added up. */
  function CpuFor(call: Call, osdCpu: real): int {
    var base := if call.s390x then S390xMinCpu(call.profile) else Fresh(call.profile).minCpu;
    var extra := call.osds - 3;
    base + (if extra > 0 then Ceil(extra as real * osdCpu) else 0)
         + (if call.nfs then (if call.s390x then NFS_S390X_CPU else NFS_CPU) else 0)
  }

  function MemFor(call: Call): int {
    var extra := call.osds - 3;
    Fresh(call.profile).minMem + (if extra > 0 then Ceil(extra as real * Fresh(call.profile).osdMem as real) else 0)
                               + (if call.nfs then NFS_MEM else 0)
  }

  /** The OSD CPU of a profile once such calls have been made. */
  function OsdCpuAfter(calls: seq<Call>, p: Profile): real {
    if calls == [] then Fresh(p).osdCpu
    else
      var last := calls[|calls| - 1];
      if last.s390x && last.profile == p then S390xOsdCpu(p) else OsdCpuAfter(calls[..|calls| - 1], p)
  }

  /** The CPU a call requires after a history of calls. */
  function Cpu(calls: seq<Call>, call: Call): int {
    CpuFor(call, OsdCpuAfter(calls + [call], call.profile))
  }

  predicate Allowed(calls: seq<Call>, call: Call, cpu: real, memory: real) {
    cpu >= Cpu(calls, call) as real && memory >= MemFor(call) as real
  }

  /** What OSDs beyond three and NFS add to the base of a profile. */
  method AddExtras(call: Call, baseCpu: int, baseMem: int, osdCpu: real, osdMem: int) returns (minCpu: int, minMem: int)
    ensures baseCpu == (if call.s390x then S390xMinCpu(call.profile) else Fresh(call.profile).minCpu) ==>
              minCpu == CpuFor(call, osdCpu)
    ensures baseMem == Fresh(call.profile).minMem && osdMem == Fresh(call.profile).osdMem ==> minMem == MemFor(call)
  {
    minCpu, minMem := baseCpu, baseMem;
    var extraOsds := call.osds - 3;
    if extraOsds > 0 {
      minCpu := minCpu + Ceil(extraOsds as real * osdCpu);
      minMem := minMem + Ceil(extraOsds as real * osdMem as real);
    }
    if call.nfs {
      minCpu := minCpu + if call.s390x then NFS_S390X_CPU else NFS_CPU;
      minMem := minMem + NFS_MEM;
    }
  }

  /** The shared table: the OSD CPUs that calls may overwrite. */
  class RequirementsMap {
    var lean: real
    var balanced: real
    var performance: real

    constructor ()
      ensures After([])
    {
      lean, balanced, performance := 1.5, 2.0, 4.0;
    }

    function OsdCpu(p: Profile): real
      reads this
    {
      match p
      case Lean => lean
      case Balanced => balanced
      case Performance => performance
    }

    /** The table after these calls. */
    ghost predicate After(calls: seq<Call>)
      reads this
    {
      forall p :: OsdCpu(p) == OsdCpuAfter(calls, p)
    }

    method SetOsdCpu(p: Profile, cpu: real)
      modifies this
      ensures forall q :: OsdCpu(q) == if q == p then cpu else old(OsdCpu(q))
    {
      match p
      case Lean => lean := cpu;
      case Balanced => balanced := cpu;
      case Performance => performance := cpu;
    }

    /** What a call writes into the table. */
    method Overwrite(call: Call, ghost calls: seq<Call>)
      requires After(calls)
      modifies this
      ensures After(calls + [call])
    {
      assert (calls + [call])[..|calls|] == calls;
      if call.s390x {
        SetOsdCpu(call.profile, S390xOsdCpu(call.profile));
      }
    }

    method GetResourceProfileRequirements(call: Call, ghost calls: seq<Call>) returns (minCpu: int, minMem: int)
      requires After(calls)
      modifies this
      ensures After(calls + [call])
      ensures minCpu == CpuFor(call, OsdCpuAfter(calls + [call], call.profile)) && minMem == MemFor(call)
    {
      var entry := Fresh(call.profile);
      minCpu, minMem := entry.minCpu, entry.minMem;
      if call.s390x {
        minCpu := S390xMinCpu(call.profile);
      }
      Overwrite(call, calls);
      minCpu, minMem := AddExtras(call, minCpu, minMem, OsdCpu(call.profile), entry.osdMem);
    }

    method IsResourceProfileAllowed(call: Call, cpu: real, memory: real, ghost calls: seq<Call>) returns (allowed: bool)
      requires After(calls)
      modifies this
      ensures After(calls + [call]) && allowed == Allowed(calls, call, cpu, memory)
      ensures allowed <==> cpu >= Cpu(calls, call) as real && memory >= MemFor(call) as real
    {
      var minCpu, minMem := GetResourceProfileRequirements(call, calls);
      allowed := cpu >= minCpu as real && memory >= minMem as real;
    }
  }

  // ----- dependence on history -----

  /** An s390x call for the profile was made before. */
  ghost predicate Overwritten(calls: seq<Call>, p: Profile) {
    exists k :: 0 <= k < |calls| && calls[k].s390x && calls[k].profile == p
  }

  lemma {:induction false} OsdCpuDependsOn(calls: seq<Call>, p: Profile)
    ensures OsdCpuAfter(calls, p) == if Overwritten(calls, p) then S390xOsdCpu(p) else Fresh(p).osdCpu
  {
    if calls == [] {
    } else {
      var n := |calls| - 1;
      OsdCpuDependsOn(calls[..n], p);
      if Overwritten(calls[..n], p) {
        var k :| 0 <= k < n && calls[..n][k].s390x && calls[..n][k].profile == p;
        assert calls[k].s390x && calls[k].profile == p;
      }
      assert forall k :: 0 <= k < n ==> calls[..n][k] == calls[k];
    }
  }

  lemma CeilMonotone(x: real, y: real)
    requires x <= y
    ensures Ceil(x) <= Ceil(y)
  {
  }

  lemma CpuByHistory(calls: seq<Call>, call: Call)
    ensures OsdCpuAfter(calls + [call], call.profile)
         == if call.s390x || Overwritten(calls, call.profile) then S390xOsdCpu(call.profile)
            else Fresh(call.profile).osdCpu
  {
    assert (calls + [call])[..|calls|] == calls;
    OsdCpuDependsOn(calls, call.profile);
  }

  /** After any history an s390x call requires what it would on the fresh table; another call's CPU
      depends only on whether an s390x call for its profile came before, and is then lower by what
      the extra OSDs save, never higher. (Memory never depends on the history.) */
  lemma HistoryDependence(calls: seq<Call>, call: Call)
    ensures call.s390x || !Overwritten(calls, call.profile) ==> Cpu(calls, call) == Cpu([], call)
    ensures !call.s390x && Overwritten(calls, call.profile) ==>
              Cpu(calls, call) == CpuFor(call, S390xOsdCpu(call.profile))
    ensures Cpu(calls, call) <= Cpu([], call)
  {
    CpuByHistory(calls, call);
    CpuByHistory([], call);
    var extra := call.osds - 3;
    if extra > 0 {
      assert extra as real * S390xOsdCpu(call.profile) <= extra as real * Fresh(call.profile).osdCpu;
      CeilMonotone(extra as real * S390xOsdCpu(call.profile), extra as real * Fresh(call.profile).osdCpu);
    }
  }

  // ----- the requirements in whole numbers -----

  lemma CeilOf(n: int)
    ensures Ceil(n as real) == n
  {
  }

  lemma CeilIs(x: real, n: int)
    requires n as real - 1.0 < x <= n as real
    ensures Ceil(x) == n
  {
  }

  /** The number of OSDs beyond three. */
  function Extra(osds: int): nat {
    if osds > 3 then osds - 3 else 0
  }

  /** Memory never depends on the history or the architecture: a base, a share per OSD beyond three,
      and 16 with NFS. */
  lemma MemoryIs(call: Call)
    ensures MemFor(call) == (match call.profile
                             case Lean => 72 + 3 * Extra(call.osds)
                             case Balanced => 72 + 5 * Extra(call.osds)
                             case Performance => 96 + 8 * Extra(call.osds))
                            + if call.nfs then 16 else 0
  {
    var extra := Extra(call.osds);
    CeilOf(3 * extra);
    CeilOf(5 * extra);
    CeilOf(8 * extra);
    assert extra as real * 3.0 == (3 * extra) as real;
    assert extra as real * 5.0 == (5 * extra) as real;
    assert extra as real * 8.0 == (8 * extra) as real;
  }

  lemma SharesAre(extra: nat)
    ensures Ceil(extra as real * 1.5) == (3 * extra + 1) / 2
    ensures Ceil(extra as real * 0.75) == (3 * extra + 3) / 4
    ensures Ceil(extra as real * 2.0) == 2 * extra
    ensures Ceil(extra as real * 4.0) == 4 * extra
    ensures Ceil(extra as real * 1.0) == extra
  {
    var x := extra as real;
    assert x * 1.5 == (3 * extra) as real / 2.0;
    assert x * 0.75 == (3 * extra) as real / 4.0;
    CeilIs(x * 1.5, (3 * extra + 1) / 2);
    CeilIs(x * 0.75, (3 * extra + 3) / 4);
    CeilIs(x * 2.0, 2 * extra);
    CeilIs(x * 4.0, 4 * extra);
    CeilIs(x * 1.0, extra);
  }

  /** CPUs on s390x, after every history. */
  lemma S390xCpuIs(calls: seq<Call>, call: Call)
    requires call.s390x
    ensures var extra := Extra(call.osds);
            Cpu(calls, call) == (match call.profile
                                 case Lean => 12 + (3 * extra + 3) / 4
                                 case Balanced => 18 + extra
                                 case Performance => 24 + 2 * extra)
                                + if call.nfs then 3 else 0
  {
    CpuByHistory(calls, call);
    SharesAre(Extra(call.osds));
  }

  /** CPUs elsewhere: each OSD beyond three takes the profile's own share, or that of s390x once the
      profile was asked for there. */
  lemma OtherCpuIs(calls: seq<Call>, call: Call)
    requires !call.s390x
    ensures var extra := Extra(call.osds);
            var overwritten := exists k :: 0 <= k < |calls| && calls[k].s390x && calls[k].profile == call.profile;
            Cpu(calls, call) == (match call.profile
                                 case Lean => 24 + (if overwritten then (3 * extra + 3) / 4 else (3 * extra + 1) / 2)
                                 case Balanced => 30 + (if overwritten then extra else 2 * extra)
                                 case Performance => 45 + (if overwritten then 2 * extra else 4 * extra))
                                + if call.nfs then 6 else 0
  {
    CpuByHistory(calls, call);
    SharesAre(Extra(call.osds));
    assert Overwritten(calls, call.profile)
      <==> exists k :: 0 <= k < |calls| && calls[k].s390x && calls[k].profile == call.profile;
  }

  // ----- order of the profiles -----

  /** Nodes allowed for one profile are allowed for the other, after this history. */
  ghost predicate Implies(calls: seq<Call>, p: Profile, q: Profile, s390x: bool, nfs: bool) {
    forall osds, cpu, memory {:trigger Allowed(calls, Call(p, osds, s390x, nfs), cpu, memory)} ::
      Allowed(calls, Call(p, osds, s390x, nfs), cpu, memory) ==> Allowed(calls, Call(q, osds, s390x, nfs), cpu, memory)
  }

  lemma MemOrder(p: Profile, q: Profile, osds: int, s390x: bool, nfs: bool)
    requires (p == Performance) || (p == Balanced && q != Performance) || p == q
    ensures MemFor(Call(q, osds, s390x, nfs)) <= MemFor(Call(p, osds, s390x, nfs))
  {
    var extra := osds - 3;
    if extra > 0 {
      CeilMonotone(extra as real * Fresh(q).osdMem as real, extra as real * Fresh(p).osdMem as real);
    }
  }

  /** The CPU requirement of `q` stays below that of `p` if its base and its share per OSD do. */
  lemma CpuOrder(p: Profile, q: Profile, osds: int, s390x: bool, nfs: bool, osdCpuP: real, osdCpuQ: real)
    requires osdCpuQ <= osdCpuP
    requires if s390x then S390xMinCpu(q) <= S390xMinCpu(p) else Fresh(q).minCpu <= Fresh(p).minCpu
    ensures CpuFor(Call(q, osds, s390x, nfs), osdCpuQ) <= CpuFor(Call(p, osds, s390x, nfs), osdCpuP)
  {
    var extra := osds - 3;
    if extra > 0 {
      assert extra as real * osdCpuQ <= extra as real * osdCpuP;
      CeilMonotone(extra as real * osdCpuQ, extra as real * osdCpuP);
    }
  }

  lemma OrderedFrom(calls: seq<Call>, p: Profile, q: Profile, s390x: bool, nfs: bool)
    requires (p == Performance) || (p == Balanced && q != Performance) || p == q
    requires var any := (r: Profile) => OsdCpuAfter(calls + [Call(r, 0, s390x, nfs)], r); any(q) <= any(p)
    ensures Implies(calls, p, q, s390x, nfs)
  {
    forall osds, cpu, memory | Allowed(calls, Call(p, osds, s390x, nfs), cpu, memory)
      ensures Allowed(calls, Call(q, osds, s390x, nfs), cpu, memory)
    {
      CpuByHistory(calls, Call(p, osds, s390x, nfs));
      CpuByHistory(calls, Call(q, osds, s390x, nfs));
      CpuByHistory(calls, Call(p, 0, s390x, nfs));
      CpuByHistory(calls, Call(q, 0, s390x, nfs));
      MemOrder(p, q, osds, s390x, nfs);
      CpuOrder(p, q, osds, s390x, nfs, OsdCpuAfter(calls + [Call(p, osds, s390x, nfs)], p),
               OsdCpuAfter(calls + [Call(q, osds, s390x, nfs)], q));
    }
  }

  /** For s390x, after any history, Performance implies Balanced implies Lean. */
  lemma S390xOrdered(calls: seq<Call>, nfs: bool)
    ensures Implies(calls, Performance, Balanced, true, nfs) && Implies(calls, Balanced, Lean, true, nfs)
  {
    CpuByHistory(calls, Call(Performance, 0, true, nfs));
    CpuByHistory(calls, Call(Balanced, 0, true, nfs));
    CpuByHistory(calls, Call(Lean, 0, true, nfs));
    OrderedFrom(calls, Performance, Balanced, true, nfs);
    OrderedFrom(calls, Balanced, Lean, true, nfs);
  }

  /** 23 OSDs: Balanced asks for 30 + 20 CPUs, Lean for 24 + 30. */
  lemma LeanAboveBalanced(calls: seq<Call>, nfs: bool)
    requires Overwritten(calls, Balanced) && !Overwritten(calls, Lean)
    ensures !Implies(calls, Balanced, Lean, false, nfs)
  {
    var balanced, lean := Call(Balanced, 23, false, nfs), Call(Lean, 23, false, nfs);
    CpuByHistory(calls, balanced);
    CpuByHistory(calls, lean);
    CeilOf(20);
    CeilOf(30);
    var cpu, memory := Cpu(calls, balanced) as real, MemFor(balanced) as real;
    assert 20 as real * 1.0 == 20.0 && 20 as real * 1.5 == 30.0;
    assert Cpu(calls, lean) == Cpu(calls, balanced) + 4;
    assert Allowed(calls, balanced, cpu, memory);
    assert !Allowed(calls, lean, cpu, memory);
  }

  /** For other architectures Performance implies Balanced after any history, but Balanced implies
      Lean only if no s390x call was made for Balanced without one for Lean. */
  lemma OtherOrderedIff(calls: seq<Call>, nfs: bool)
    ensures Implies(calls, Performance, Balanced, false, nfs)
    ensures Implies(calls, Balanced, Lean, false, nfs) <==> !(Overwritten(calls, Balanced) && !Overwritten(calls, Lean))
  {
    CpuByHistory(calls, Call(Performance, 0, false, nfs));
    CpuByHistory(calls, Call(Balanced, 0, false, nfs));
    CpuByHistory(calls, Call(Lean, 0, false, nfs));
    OrderedFrom(calls, Performance, Balanced, false, nfs);
    if Overwritten(calls, Balanced) && !Overwritten(calls, Lean) {
      LeanAboveBalanced(calls, nfs);
    } else {
      OrderedFrom(calls, Balanced, Lean, false, nfs);
    }
  }

  /** In particular on the fresh table. */
  lemma FreshOrdered(nfs: bool)
    ensures Implies([], Performance, Balanced, false, nfs) && Implies([], Balanced, Lean, false, nfs)
  {
    OtherOrderedIff([], nfs);
  }
}
