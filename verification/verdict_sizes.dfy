/**
 The sizes that the CPU and memory verdicts carry and the axes pass on, in raw statistics: each is the
 least size that meets the stated limits.
 */
module VerdictSizes {
  import opened Wrappers
  import opened Recommendation
  import opened HostRollup
  import opened MountCapacity
  import opened Sizing

  // ---------------------------------------------------------------- CPU

  function Queue(s: ResourceStats): Option<real> {
    if s.os.Windows? then s.cpuRunQueueP95 else s.procsRunningP95
  }

  function Line(os: OsFamily): real {
    if os.Windows? then 2.0 else 1.0
  }

  /** The load of `c` cores at `u` percent stays at or below 70 % of `n` cores. */
  predicate LoadFits(u: real, c: int, n: int)
    requires n >= 1
  {
    u * c as real / n as real <= 70.0
  }

  /** The queue per core stays at or below 0.7 of its line. */
  predicate QueueFits(queue: real, os: OsFamily, n: int)
    requires n >= 1
  {
    queue / n as real <= 0.7 * Line(os)
  }

  /** The run queue per core is at its line, and no measured utilization below 70 % speaks against it. */
  predicate QueueHigh(s: ResourceStats) {
    && s.cpuCores.Some? && s.cpuCores.value > 0 && Queue(s).Some?
    && Queue(s).value / s.cpuCores.value as real >= Line(s.os)
    && (s.cpuP95.Some? ==> s.cpuP95.value >= 70.0)
  }

  /** The load on `n` cores stays at or below 70 %, and a queue that is too long at 0.7 of its line. */
  predicate CpuFits(s: ResourceStats, n: int)
    requires s.cpuCores.Some? && n >= 1
  {
    && (s.cpuP95.Some? ==> LoadFits(s.cpuP95.value, s.cpuCores.value, n))
    && (QueueHigh(s) && Queue(s).value > 0.0 ==> QueueFits(Queue(s).value, s.os, n))
  }

  lemma TargetIsLeast(s: ResourceStats, n: int)
    requires s.cpuCores.Some? && s.cpuCores.value > 0 && n >= 1
    ensures CpuTarget(s) >= 1
    ensures CpuTarget(s) <= n <==> CpuFits(s, n)
  {
    hide CpuTargetCores, CpuSaturated, QueueHigh, LoadFits, QueueFits;
    QueueHighMeansSaturated(s);
    var util := if s.cpuP95.Some? then s.cpuP95.value else 0.0;
    TargetCoresFit(util, s.cpuCores.value, RunQueueValue(s), s.os, QueueHigh(s), n);
    assert CpuTarget(s) == CpuTargetCores(util, s.cpuCores.value, RunQueueValue(s), s.os, QueueHigh(s));
    assert RunQueueValue(s) == Queue(s);
    QueueIsKnown(s);
    if s.cpuP95.None? {
      NoLoadFits(s.cpuCores.value, n);
    }
  }

  lemma QueueIsKnown(s: ResourceStats)
    ensures QueueHigh(s) ==> Queue(s).Some?
  {
  }

  lemma NoLoadFits(c: int, n: int)
    requires n >= 1
    ensures LoadFits(0.0, c, n)
  {
    assert 0.0 * c as real == 0.0;
  }

  lemma TargetCoresFit(util: real, cores: int, queue: Option<real>, os: OsFamily, saturated: bool, n: int)
    requires cores > 0 && n >= 1
    ensures CpuTargetCores(util, cores, queue, os, saturated) >= 1
    ensures CpuTargetCores(util, cores, queue, os, saturated) <= n <==>
      LoadFits(util, cores, n) && (saturated && queue.Some? && queue.value > 0.0 ==> QueueFits(queue.value, os, n))
  {
    CpuTargetIsTight(util, cores, queue, os, saturated, n);
    AtLeastOneCore(util, cores, queue, os, saturated);
    hide CpuTargetCores;
  }

  lemma AtLeastOneCore(util: real, cores: int, queue: Option<real>, os: OsFamily, saturated: bool)
    ensures CpuTargetCores(util, cores, queue, os, saturated) >= 1
  {
    hide UtilCores, SatCores;
  }

  lemma QueueHighMeansSaturated(s: ResourceStats)
    ensures CpuSaturated(s) == Some(true) <==> QueueHigh(s)
  {
  }

  /** CPU is short exactly from 70 % on or with a queue at its line; the target of a shortage or an excess
      is the least core count that fits, a shortage that fits already gets one core more as its floor, and
      an optimal host keeps its size. */
  lemma CpuVerdictSizes(s: ResourceStats, n: int)
    requires s.cpuCores.Some? && s.cpuCores.value > 0 && n >= 1
    ensures var (a, cores) := (AssessCpu(s), s.cpuCores.value);
      && (a.status == Under <==> (s.cpuP95.Some? && s.cpuP95.value >= 70.0) || QueueHigh(s))
      && (a.status == Under || a.status == Over ==>
            a.sizingTarget.Some? ==> a.sizingTarget.value >= 1 && (a.sizingTarget.value <= n <==> CpuFits(s, n)))
      && (a.status == Under ==> (a.sizingTarget.None? <==> CpuFits(s, cores)))
      && (a.status == Under ==> a.sizingFloor == if a.sizingTarget.None? then Some(cores + 1) else None)
      && (a.status == Over ==> a.sizingTarget.Some? && a.sizingFloor.None?)
      && (a.status == Optimal ==> a.sizingTarget == Some(cores))
  {
    TargetIsLeast(s, n);
    TargetIsLeast(s, s.cpuCores.value);
    QueueHighMeansSaturated(s);
    if s.cpuP95.Some? {
      CpuUnderIff(s);
    }
    hide CpuTarget, CpuSaturated, CpuFits, QueueHigh, CpuConfidence;
  }

  /** The CPU axis of the API recommends that size. */
  lemma CpuAxisSizes(s: ResourceStats, n: int)
    requires s.cpuCores.Some? && s.cpuCores.value > 0 && n >= 1
    ensures var (axis, cores) := (HostAxisOf(Cpu, s, Rollup(s))[0], s.cpuCores.value);
      && axis.HostAxis? && axis.kind == Cpu && axis.current == cores
      && (axis.action == Increase <==> (s.cpuP95.Some? && s.cpuP95.value >= 70.0) || QueueHigh(s))
      && (axis.action == Increase && CpuFits(s, cores) ==> axis.recommended == cores + 1 && axis.quality == FloorOnly)
      && (axis.action == Decrease || (axis.action == Increase && !CpuFits(s, cores)) ==>
            axis.quality == Exact && axis.recommended >= 1 && (axis.recommended <= n <==> CpuFits(s, n)))
      && (axis.action == Keep ==> axis.recommended == cores)
  {
    assert Rollup(s).resources.Get(Cpu) == AssessCpu(s);
    CpuVerdictSizes(s, n);
    hide AssessCpu, CpuFits, QueueHigh, Rollup;
  }

  // ---------------------------------------------------------------- memory

  function Peak(s: ResourceStats): real
    requires s.memP95.Some?
  {
    if s.memNearPeak.Some? then s.memNearPeak.value else s.memP95.value
  }

  /** Utilization from 90 % on together with paging. */
  predicate Paging(s: ResourceStats) {
    && s.memP95.Some? && s.memP95.value >= 90.0
    && if s.os.Windows? then s.memPagesInputP95.Some? && s.memPagesInputP95.value >= 20.0 else s.memSwapPaging
  }

  predicate PeakFits(total: int, peak: real, n: int)
    requires n >= 1
  {
    total as real * peak / n as real <= 80.0
  }

  predicate HeadroomFits(total: int, n: int) {
    total as real * 1.3 <= n as real
  }

  /** The peak stays at or below 80 % of `n` MB and, after paging or an OOM kill, 30 % are added. */
  predicate MemoryFits(s: ResourceStats, n: int)
    requires s.memP95.Some? && s.memTotalMb.Some? && n >= 1
  {
    && (Peak(s) > 0.0 ==> PeakFits(s.memTotalMb.value, Peak(s), n))
    && (Paging(s) || s.oomOccurred ==> HeadroomFits(s.memTotalMb.value, n))
  }

  lemma HeadroomIsLeast(total: int, n: int)
    ensures MemHeadroomMb(total) <= n <==> HeadroomFits(total, n)
  {
    CeilIsLeast(total as real * 1.3, n);
  }

  lemma CandidateIsLeast(s: ResourceStats, n: int)
    requires s.memP95.Some? && s.memTotalMb.Some? && n >= 1
    ensures var c := MemCandidate(MemTargetMb(NearPeak(s).value, s.memTotalMb), s);
      (c.None? || c.value <= n) <==> MemoryFits(s, n)
  {
    hide MemTargetMb, MemHeadroomMb, MemPagingActive, Paging, PeakFits, HeadroomFits;
    PagingIsActive(s);
    HeadroomIsLeast(s.memTotalMb.value, n);
    PeakTargetIsLeast(Peak(s), s.memTotalMb.value, n);
  }

  lemma PeakTargetIsLeast(peak: real, total: int, n: int)
    requires n >= 1
    ensures MemTargetMb(peak, Some(total)).Some? <==> peak > 0.0
    ensures peak > 0.0 ==> (MemTargetMb(peak, Some(total)).value <= n <==> PeakFits(total, peak, n))
  {
    if peak > 0.0 {
      MemTargetIsTight(peak, total, n);
    }
  }

  lemma PeakTargetIsPositive(peak: real, total: int)
    requires total > 0 && peak > 0.0
    ensures MemTargetMb(peak, Some(total)).value >= 1
  {
    MulKeepsOrder(0.0, peak, total as real);
    Ratio(total as real * peak, 80.0, 0.0);
  }

  lemma PagingIsActive(s: ResourceStats)
    ensures MemPagingActive(s) <==> Paging(s)
  {
  }

  /** Memory is short exactly from 90 % on or after an OOM kill; the target of a shortage or an excess is
      the least size that fits, the floor of a shortage without a target the least one with 30 % more, and
      an optimal host keeps its size. */
  lemma MemoryVerdictSizes(s: ResourceStats, n: int)
    requires s.memTotalMb.Some? && s.memTotalMb.value > 0 && n >= 1
    ensures var (a, total) := (AssessMemory(s), s.memTotalMb.value);
      && (a.status == Under <==> (s.memP95.Some? && s.memP95.value >= 90.0) || s.oomOccurred)
      && (a.status == Under || a.status == Over ==> a.sizingTarget.Some? ==>
            s.memP95.Some? && a.sizingTarget.value >= 1 && (a.sizingTarget.value <= n <==> MemoryFits(s, n)))
      && (a.status == Under ==> (a.sizingTarget.None? <==> s.memP95.None? || MemoryFits(s, total)))
      && (a.status == Under ==> (a.sizingFloor.Some? <==> a.sizingTarget.None?))
      && (a.status == Under && a.sizingFloor.Some? ==> (a.sizingFloor.value <= n <==> HeadroomFits(total, n)))
      && (a.status == Over ==> a.sizingTarget.Some? && a.sizingFloor.None?)
      && (a.status == Optimal ==> a.sizingTarget == Some(total))
  {
    hide MemTargetMb, MemHeadroomMb, MemPagingActive, Paging, MemoryFits, HeadroomFits;
    HeadroomIsLeast(s.memTotalMb.value, n);
    MemoryUnderIff(s);
    if s.memP95.Some? {
      PagingIsActive(s);
      CandidateIsLeast(s, n);
      CandidateIsLeast(s, s.memTotalMb.value);
      PeakTargetIsLeast(Peak(s), s.memTotalMb.value, n);
      if Peak(s) > 0.0 {
        PeakTargetIsPositive(Peak(s), s.memTotalMb.value);
      }
    }
  }

  /** The memory axis of the API recommends that size. */
  lemma MemoryAxisSizes(s: ResourceStats, n: int)
    requires s.memTotalMb.Some? && s.memTotalMb.value > 0 && n >= 1
    ensures var (axis, total) := (HostAxisOf(Memory, s, Rollup(s))[0], s.memTotalMb.value);
      && axis.HostAxis? && axis.kind == Memory && axis.current == total
      && (axis.action == Increase <==> (s.memP95.Some? && s.memP95.value >= 90.0) || s.oomOccurred)
      && (axis.action == Increase && (s.memP95.None? || MemoryFits(s, total)) ==>
            axis.quality == FloorOnly && (axis.recommended <= n <==> HeadroomFits(total, n)))
      && (axis.action == Decrease || (axis.action == Increase && s.memP95.Some? && !MemoryFits(s, total)) ==>
            s.memP95.Some? && axis.quality == Exact && axis.recommended >= 1
            && (axis.recommended <= n <==> MemoryFits(s, n)))
      && (axis.action == Keep ==> axis.recommended == total)
  {
    assert Rollup(s).resources.Get(Memory) == AssessMemory(s);
    MemoryVerdictSizes(s, n);
    hide AssessMemory, MemoryFits, Rollup;
  }

  // ---------------------------------------------------------------- which sizes may shrink

  /** 30 hours of history and more, at most bursts of twice the average, no rising trend, and 70 % of the
      window sampled; an unknown history, burst or trend counts as good, an unknown coverage does not. */
  predicate IsWellObserved(s: ResourceStats) {
    && (s.historyHours.Some? ==> s.historyHours.value >= 30.0)
    && (s.cpuBurstRatio.Some? ==> s.cpuBurstRatio.value <= 2.0)
    && s.utilTrendRising != Some(true)
    && s.sampleSufficiency.Some? && s.sampleSufficiency.value >= 0.7
  }

  lemma WellObservedIs(s: ResourceStats)
    ensures WellObserved(s) <==> IsWellObserved(s)
  {
  }

  /** The CPU axis shrinks exactly when one core less holds the load, no core is at 85 %, the queue was
      measured, less than 5 % of the time was stolen, and the window is well observed. */
  lemma CpuShrinksIff(s: ResourceStats)
    requires s.cpuCores.Some?
    ensures HostAxisOf(Cpu, s, Rollup(s))[0].action == Decrease <==>
      && s.cpuCores.value >= 2 && s.cpuP95.Some?
      && s.cpuP95.value * s.cpuCores.value as real / (s.cpuCores.value - 1) as real <= 70.0
      && (s.cpuPercoreMax.Some? ==> s.cpuPercoreMax.value < 85.0) && Queue(s).Some?
      && (s.cpuStealP95.Some? ==> s.cpuStealP95.value < 5.0) && IsWellObserved(s)
  {
    hide Rollup, AxisSize, IsWellObserved;
    CpuAxisDecreasesIff(s);
    WellObservedIs(s);
  }

  /** The memory axis shrinks exactly when utilization is below 90 % without an OOM kill, one MB less holds
      the positive peak at 80 %, and the window is well observed. */
  lemma MemoryShrinksIff(s: ResourceStats)
    requires s.memTotalMb.Some? && s.memTotalMb.value >= 0
    ensures HostAxisOf(Memory, s, Rollup(s))[0].action == Decrease <==>
      && s.memP95.Some? && s.memP95.value < 90.0 && !s.oomOccurred && s.memTotalMb.value >= 2 && Peak(s) > 0.0
      && s.memTotalMb.value as real * Peak(s) / (s.memTotalMb.value - 1) as real <= 80.0
      && IsWellObserved(s)
  {
    hide Rollup, AxisSize, IsWellObserved;
    MemoryAxisDecreasesIff(s);
    WellObservedIs(s);
  }
}
