/** The assessment API's sizing axes: verdicts turned into sizes, one axis per resource and mount. */
module Sizing {
  import opened Wrappers
  import opened Recommendation
  import opened HostRollup
  import opened MountCapacity

  datatype Axis =
    | HostAxis(kind: ResourceKind, current: int, recommended: int, action: Action, quality: EstimateQuality)
    | DiskAxis(mountpoint: string, current: int, recommended: int, action: Action, quality: EstimateQuality,
        inodeNote: bool)

  function AxisSize(current: int, ra: ResourceAssessment, s: ResourceStats): (int, Action, EstimateQuality) {
    match ra.status
    case Under =>
      if ra.sizingTarget.Some? then (ra.sizingTarget.value, Increase, Exact)
      else if ra.sizingFloor.Some? then (ra.sizingFloor.value, Increase, FloorOnly)
      else (current, Keep, Uncertain)
    case Over =>
      if DownsizePrescribable(ra, s) && ra.sizingTarget.Some? then (ra.sizingTarget.value, Decrease, Exact)
      else (current, Keep, Exact)
    case Unmeasured => (current, Keep, Uncertain)
    case Insufficient => (current, Keep, Uncertain)
    case _ => (current, Keep, Exact)
  }

  /** Units the resource has now; an axis without them is left out. */
  function CurrentOf(kind: ResourceKind, s: ResourceStats): Option<int> {
    if kind == Cpu then s.cpuCores else s.memTotalMb
  }

  function HostAxisOf(kind: ResourceKind, s: ResourceStats, host: HostAssessment): seq<Axis> {
    var current := CurrentOf(kind, s);
    if current.None? then [] else
      var (rec, action, quality) := AxisSize(current.value, host.resources.Get(kind), s);
      [HostAxis(kind, current.value, rec, action, quality)]
  }

  function DiskAxisOf(m: MountCapacityRaw): seq<Axis> {
    var sizing := AssessMountCapacity(m);
    if sizing.None? then [] else
      [DiskAxis(m.mountpoint, sizing.value.currentGib, sizing.value.recommendedGib, sizing.value.action,
                sizing.value.quality, sizing.value.inodeNote)]
  }

  function DiskAxes(mounts: seq<MountCapacityRaw>): seq<Axis> {
    if mounts == [] then [] else DiskAxes(mounts[..|mounts| - 1]) + DiskAxisOf(mounts[|mounts| - 1])
  }

  lemma DiskAxesSnoc(mounts: seq<MountCapacityRaw>, k: nat)
    requires k < |mounts|
    ensures DiskAxes(mounts[..k + 1]) == DiskAxes(mounts[..k]) + DiskAxisOf(mounts[k])
  {
    assert mounts[..k + 1][..k] == mounts[..k];
  }

  function AllAxes(s: ResourceStats, mounts: seq<MountCapacityRaw>): seq<Axis> {
    HostAxisOf(Cpu, s, Rollup(s)) + HostAxisOf(Memory, s, Rollup(s)) + DiskAxes(mounts)
  }

  method SizingAxes(s: ResourceStats, mounts: seq<MountCapacityRaw>) returns (axes: seq<Axis>)
    ensures axes == AllAxes(s, mounts)
  {
    hide Rollup, AxisSize, AssessMountCapacity;
    var host := RollupHost(s);
    axes := [];
    var sizingAxes := [(Cpu, s.cpuCores), (Memory, s.memTotalMb)];
    for k := 0 to |sizingAxes|
      invariant axes == (if k >= 1 then HostAxisOf(Cpu, s, host) else [])
                        + if k >= 2 then HostAxisOf(Memory, s, host) else []
    {
      var (kind, current) := sizingAxes[k];
      if current.None? {
        continue;
      }
      var (rec, action, quality) := AxisSize(current.value, host.resources.Get(kind), s);
      axes := axes + [HostAxis(kind, current.value, rec, action, quality)];
    }
    ghost var hostAxes := axes;
    assert hostAxes == HostAxisOf(Cpu, s, host) + HostAxisOf(Memory, s, host);
    assert DiskAxes(mounts[..0]) == [];
    hide DiskAxes, HostAxisOf;
    for k := 0 to |mounts|
      invariant axes == hostAxes + DiskAxes(mounts[..k])
    {
      DiskAxesSnoc(mounts, k);
      var sizing := AssessMountCapacity(mounts[k]);
      if sizing.None? {
        continue;
      }
      axes := axes + [DiskAxis(mounts[k].mountpoint, sizing.value.currentGib, sizing.value.recommendedGib,
                               sizing.value.action, sizing.value.quality, sizing.value.inodeNote)];
    }
    assert mounts[..|mounts|] == mounts;
  }

  // ---------------------------------------------------------------- which axes there are

  predicate Sized(m: MountCapacityRaw) {
    m.totalBytes.Some? && m.totalBytes.value != 0
  }

  /** How many of the first `k` mounts have a size. */
  function SizedBefore(mounts: seq<MountCapacityRaw>, k: nat): nat
    requires k <= |mounts|
  {
    if k == 0 then 0 else SizedBefore(mounts, k - 1) + if Sized(mounts[k - 1]) then 1 else 0
  }

  lemma {:induction false} DiskAxesInOrder(mounts: seq<MountCapacityRaw>, n: nat, k: nat)
    requires k < n <= |mounts| && Sized(mounts[k])
    ensures |DiskAxes(mounts[..n])| == SizedBefore(mounts, n) > SizedBefore(mounts, k)
    ensures DiskAxes(mounts[..n])[SizedBefore(mounts, k)] == DiskAxisOf(mounts[k])[0]
  {
    hide AssessMountCapacity;
    assert mounts[..n][..n - 1] == mounts[..n - 1];
    if k < n - 1 {
      DiskAxesInOrder(mounts, n - 1, k);
    } else {
      DiskAxesCount(mounts, k);
    }
    assert |DiskAxisOf(mounts[n - 1])| == if Sized(mounts[n - 1]) then 1 else 0 by {
      SizedIffAssessed(mounts[n - 1]);
    }
    SizedIffAssessed(mounts[k]);
  }

  lemma SizedIffAssessed(m: MountCapacityRaw)
    ensures AssessMountCapacity(m).Some? <==> Sized(m)
  {
  }

  lemma {:induction false} DiskAxesCount(mounts: seq<MountCapacityRaw>, n: nat)
    requires n <= |mounts|
    ensures |DiskAxes(mounts[..n])| == SizedBefore(mounts, n)
  {
    hide AssessMountCapacity;
    if n > 0 {
      assert mounts[..n][..n - 1] == mounts[..n - 1];
      SizedIffAssessed(mounts[n - 1]);
      DiskAxesCount(mounts, n - 1);
    }
  }

  /** The CPU axis comes first and the memory axis next, each if its present size is known; then one axis for
      every mount with a size, in the order of the mounts. */
  lemma AxesAre(s: ResourceStats, mounts: seq<MountCapacityRaw>)
    ensures var axes := AllAxes(s, mounts);
      var cpu, memory := if s.cpuCores.Some? then 1 else 0, if s.memTotalMb.Some? then 1 else 0;
      && |axes| == cpu + memory + SizedBefore(mounts, |mounts|)
      && (cpu == 1 ==> axes[0].HostAxis? && axes[0].kind == Cpu && axes[0].current == s.cpuCores.value)
      && (memory == 1 ==>
            axes[cpu].HostAxis? && axes[cpu].kind == Memory && axes[cpu].current == s.memTotalMb.value)
      && forall k | 0 <= k < |mounts| && Sized(mounts[k]) ::
           && SizedBefore(mounts, k) < SizedBefore(mounts, |mounts|) && AssessMountCapacity(mounts[k]).Some?
           && var (axis, size) := (axes[cpu + memory + SizedBefore(mounts, k)], AssessMountCapacity(mounts[k]).value);
             axis == DiskAxis(mounts[k].mountpoint, size.currentGib, size.recommendedGib, size.action, size.quality,
                              size.inodeNote)
  {
    hide AssessMountCapacity, AxisSize, Rollup, DiskAxes, SizedBefore;
    assert mounts[..|mounts|] == mounts;
    DiskAxesCount(mounts, |mounts|);
    forall k | 0 <= k < |mounts| && Sized(mounts[k])
      ensures SizedBefore(mounts, k) < SizedBefore(mounts, |mounts|) && AssessMountCapacity(mounts[k]).Some?
      ensures DiskAxes(mounts)[SizedBefore(mounts, k)] == DiskAxisOf(mounts[k])[0]
    {
      SizedIffAssessed(mounts[k]);
      DiskAxesInOrder(mounts, |mounts|, k);
    }
  }

  // ---------------------------------------------------------------- the action says what the size does

  predicate ActionAgrees(a: Axis) {
    && (a.action == Increase <==> a.recommended > a.current)
    && (a.action == Decrease <==> a.recommended < a.current)
    && (a.action == Keep <==> a.recommended == a.current)
  }

  predicate AllAgree(axes: seq<Axis>) {
    forall k | 0 <= k < |axes| :: ActionAgrees(axes[k])
  }

  predicate SizesPossible(s: ResourceStats, mounts: seq<MountCapacityRaw>) {
    && (s.memTotalMb.Some? ==> s.memTotalMb.value >= 0)
    && (forall k | 0 <= k < |mounts| :: mounts[k].totalBytes.Some? ==> mounts[k].totalBytes.value >= 0)
  }

  lemma CpuAxisAgrees(s: ResourceStats)
    requires s.cpuCores.Some?
    ensures ActionAgrees(HostAxisOf(Cpu, s, Rollup(s))[0])
  {
    assert Rollup(s).resources.Get(Cpu) == AssessCpu(s);
  }

  lemma HeadroomGrows(total: int)
    requires total >= 0
    ensures MemHeadroomMb(total) > total <==> total > 0
  {
  }

  lemma MemoryAxisAgreesIff(s: ResourceStats)
    requires s.memTotalMb.Some? && s.memTotalMb.value >= 0
    ensures ActionAgrees(HostAxisOf(Memory, s, Rollup(s))[0])
      <==> !(s.memTotalMb.value == 0 && AssessMemory(s).status == Under)
  {
    assert Rollup(s).resources.Get(Memory) == AssessMemory(s);
    MemorySizes(s);
  }

  /** A shortage is sized above the current total, or at it when that is 0; an excess below it. */
  lemma MemorySizes(s: ResourceStats)
    requires s.memTotalMb.Some? && s.memTotalMb.value >= 0
    ensures var (a, total) := (AssessMemory(s), s.memTotalMb.value);
      && (a.status == Under ==> a.sizingTarget.Some? || a.sizingFloor.Some?)
      && (a.status == Under && a.sizingTarget.Some? ==> a.sizingTarget.value > total > 0)
      && (a.status == Under && a.sizingTarget.None? ==>
            a.sizingFloor.Some? && a.sizingFloor.value >= total && (a.sizingFloor.value > total <==> total > 0))
      && (a.status == Over ==> a.sizingTarget.Some? && a.sizingTarget.value < total)
  {
    HeadroomGrows(s.memTotalMb.value);
  }

  lemma {:induction false} DiskAxesAgree(mounts: seq<MountCapacityRaw>)
    requires forall k | 0 <= k < |mounts| :: mounts[k].totalBytes.Some? ==> mounts[k].totalBytes.value >= 0
    ensures AllAgree(DiskAxes(mounts))
    ensures forall k | 0 <= k < |DiskAxes(mounts)| ::
      DiskAxes(mounts)[k].DiskAxis? && DiskAxes(mounts)[k].action != Decrease
  {
    if mounts != [] {
      DiskAxesAgree(mounts[..|mounts| - 1]);
      DisksNeverShrink(mounts[|mounts| - 1]);
    }
  }

  /** On every axis the action says exactly how the recommended size compares with the current one; the
      one exception is a memory shortage on a host that reports a total of 0. */
  lemma ActionsAgreeIff(s: ResourceStats, mounts: seq<MountCapacityRaw>)
    requires SizesPossible(s, mounts)
    ensures AllAgree(AllAxes(s, mounts)) <==>
      !(s.memTotalMb == Some(0) && (AtLeast(s.memP95, RS_MEM_UNDER_PCT) || s.oomOccurred))
  {
    DiskAxesAgree(mounts);
    var cpu, memory, disks := HostAxisOf(Cpu, s, Rollup(s)), HostAxisOf(Memory, s, Rollup(s)), DiskAxes(mounts);
    assert AllAgree(cpu) by { if s.cpuCores.Some? { CpuAxisAgrees(s); } }
    if s.memTotalMb.Some? {
      MemoryAxisAgreesIff(s);
      MemoryUnderIff(s);
      assert AllAxes(s, mounts)[|cpu|] == memory[0];
    }
    AgreeConcat(cpu, memory);
    AgreeConcat(cpu + memory, disks);
  }

  lemma AgreeConcat(a: seq<Axis>, b: seq<Axis>)
    ensures AllAgree(a + b) <==> AllAgree(a) && AllAgree(b)
  {
    if AllAgree(a + b) {
      assert forall k | 0 <= k < |a| :: a[k] == (a + b)[k];
      assert forall k | 0 <= k < |b| :: b[k] == (a + b)[|a| + k];
    }
  }

  lemma HostDecreaseIff(current: int, ra: ResourceAssessment, s: ResourceStats)
    requires ra.status == Over ==> ra.sizingTarget.Some?
    ensures AxisSize(current, ra, s).1 == Decrease <==> DownsizePrescribable(ra, s)
  {
  }

  lemma HostAxisDecreaseIff(kind: ResourceKind, s: ResourceStats)
    requires (kind == Cpu || kind == Memory) && CurrentOf(kind, s).Some?
    ensures var a := HostAxisOf(kind, s, Rollup(s))[0];
      a.HostAxis? && a.kind == kind && (a.action == Decrease <==> DownsizePrescribable(AssessAll(s).Get(kind), s))
  {
    assert kind == Cpu ==> AssessAll(s).Get(kind) == AssessCpu(s);
    assert kind == Memory ==> AssessAll(s).Get(kind) == AssessMemory(s);
    HostDecreaseIff(CurrentOf(kind, s).value, AssessAll(s).Get(kind), s);
  }

  /** The CPU axis decreases exactly when the raw statistics say that one core less would do, no core is
      busy, the run queue was measured, steal is low and the window is well observed. */
  lemma CpuAxisDecreasesIff(s: ResourceStats)
    requires s.cpuCores.Some?
    ensures HostAxisOf(Cpu, s, Rollup(s))[0].action == Decrease <==>
      && s.cpuP95.Some? && FitsOneCoreLess(s.cpuP95.value, s.cpuCores.value) && !PercoreBusy(s)
      && RunQueueValue(s).Some? && !AtLeast(s.cpuStealP95, RS_CPU_STEAL_BIAS_PCT)
      && WellObserved(s)
  {
    HostAxisDecreaseIff(Cpu, s);
    CpuDownsizeIff(s);
  }

  /** The memory axis decreases exactly when the raw statistics say that the peak fits a smaller size,
      no OOM kill happened and the window is well observed. */
  lemma MemoryAxisDecreasesIff(s: ResourceStats)
    requires s.memTotalMb.Some? && s.memTotalMb.value >= 0
    ensures HostAxisOf(Memory, s, Rollup(s))[0].action == Decrease <==>
      && s.memP95.Some? && s.memP95.value < RS_MEM_UNDER_PCT && !s.oomOccurred
      && FitsOneMbLess(NearPeak(s).value, s.memTotalMb.value)
      && WellObserved(s)
  {
    HostAxisDecreaseIff(Memory, s);
    MemoryDownsizeIff(s);
  }

  lemma CpuUncertainIff(s: ResourceStats)
    requires s.cpuCores.Some?
    ensures AxisSize(s.cpuCores.value, AssessCpu(s), s).2 == Uncertain <==> AssessCpu(s).status == Unmeasured
  {
    hide CpuTarget, CpuTriggers, CpuConfidence;
  }

  lemma MemoryUncertainIff(s: ResourceStats)
    requires s.memTotalMb.Some?
    ensures AxisSize(s.memTotalMb.value, AssessMemory(s), s).2 == Uncertain <==> AssessMemory(s).status == Unmeasured
  {
  }

  /** A size is uncertain exactly when the resource was not measured: a shortage always has a target or
      a floor. */
  lemma UncertainIff(s: ResourceStats, kind: ResourceKind)
    requires kind == Cpu || kind == Memory
    requires CurrentOf(kind, s).Some?
    ensures HostAxisOf(kind, s, Rollup(s))[0].quality == Uncertain <==>
      Rollup(s).resources.Get(kind).status == Unmeasured
  {
    assert Rollup(s).resources.Get(Cpu) == AssessCpu(s) && Rollup(s).resources.Get(Memory) == AssessMemory(s);
    hide Rollup, AssessCpu, AssessMemory, AxisSize;
    if kind == Cpu {
      CpuUncertainIff(s);
    } else {
      MemoryUncertainIff(s);
    }
  }
}
