/** The host's status, root cause and symptoms, told from its raw statistics. */
module HostVerdict {
  import opened Wrappers
  import opened Recommendation
  import opened HostRollup
  import MountCapacity
  import opened VerdictSizes

  // ---------------------------------------------------------------- raw conditions

  predicate CpuIsShort(s: ResourceStats) {
    s.cpuCores.Some? && s.cpuCores.value > 0 && ((s.cpuP95.Some? && s.cpuP95.value >= 70.0) || QueueHigh(s))
  }

  predicate MemoryIsShort(s: ResourceStats) {
    (s.memP95.Some? && s.memP95.value >= 90.0) || s.oomOccurred
  }

  /** Bytes or inodes run out. */
  predicate DiskIsFull(s: ResourceStats) {
    MountCapacity.RunsOut(s.diskRunway, s.diskUsed) || MountCapacity.RunsOut(s.inodeRunway, s.inodeUsed)
  }

  /** Waits of more than 20 ms or, where Windows does not report them, a queue of 2 and more. */
  predicate IoIsSlow(s: ResourceStats) {
    if s.diskAwaitP95.Some? then s.diskAwaitP95.value > 20.0
    else s.os.Windows? && s.diskQueueP95.Some? && s.diskQueueP95.value >= 2.0
  }

  predicate IsShort(s: ResourceStats) {
    CpuIsShort(s) || MemoryIsShort(s) || DiskIsFull(s)
  }

  /** CPU and network measured quiet, and no disk activity measured. */
  predicate IsIdle(s: ResourceStats) {
    && s.cpuP95.Some? && s.cpuP95.value <= 3.0
    && s.netAvgKbytes.Some? && s.netAvgKbytes.value * 8.0 <= 2000.0
    && (s.diskIopsBaseline.None? || s.diskIopsBaseline.value <= 5.0)
  }

  predicate CpuIsJudged(s: ResourceStats) {
    s.cpuP95.Some? && s.cpuCores.Some? && s.cpuCores.value > 0
  }

  /** One core or one MB less would still hold the load, and no core is at 85 %. */
  predicate IsOversized(s: ResourceStats) {
    || (CpuIsJudged(s) && s.cpuCores.value >= 2 && CpuFits(s, s.cpuCores.value - 1)
        && !(s.cpuPercoreMax.Some? && s.cpuPercoreMax.value >= 85.0))
    || (s.memP95.Some? && s.memTotalMb.Some? && s.memTotalMb.value >= 2 && Peak(s) > 0.0
        && PeakFits(s.memTotalMb.value, Peak(s), s.memTotalMb.value - 1))
  }

  // ---------------------------------------------------------------- the verdicts

  lemma DiskIoIs(s: ResourceStats)
    ensures AssessDiskIo(s).status == IoBound <==> IoIsSlow(s)
    ensures AssessDiskIo(s).status == Unmeasured <==>
      s.diskAwaitP95.None? && !(s.os.Windows? && s.diskQueueP95.Some?) && s.diskIopsBaseline.None?
    ensures AssessDiskIo(s).status in {IoBound, IoOk, Unmeasured}
  {
  }

  lemma DiskCapacityIs(s: ResourceStats)
    ensures AssessDiskCapacity(s).status == Filling <==> DiskIsFull(s)
    ensures AssessDiskCapacity(s).status == Unmeasured <==>
      s.diskRunway.None? && s.inodeRunway.None? && s.diskUsed.None? && s.inodeUsed.None?
    ensures AssessDiskCapacity(s).status in {Filling, CapacityOk, Unmeasured}
  {
  }

  /** The target of a full disk, in whole GB: passed on unless inodes run out first or alone. */
  lemma DiskTargetIs(s: ResourceStats, n: int)
    ensures var target := AssessDiskCapacity(s).sizingTarget;
      && (target.Some? <==>
            && MountCapacity.RunsOut(s.diskRunway, s.diskUsed)
            && !(s.inodeRunway.Some? && s.inodeRunway.value < 30.0
                 && (s.diskRunway.None? || s.inodeRunway.value < s.diskRunway.value))
            && s.diskTargetGb.Some? && s.diskTargetGb.value >= 1.0)
      && (target.Some? ==> (target.value <= n <==> s.diskTargetGb.value <= n as real))
  {
    if s.diskTargetGb.Some? {
      CeilIsLeast(s.diskTargetGb.value, n);
    }
  }

  lemma NetworkIs(s: ResourceStats)
    ensures var busy := s.netAvgKbytes.None? || s.netAvgKbytes.value >= 10.0;
      AssessNetwork(s).status == Congested <==>
        || (busy && s.netRetrans.Some? && s.netRetrans.value > 1.0)
        || (busy && s.netDrop.Some? && s.netDrop.value > 0.5)
        || (s.conntrackRatio.Some? && s.conntrackRatio.value >= 0.8)
    ensures AssessNetwork(s).status == Unmeasured <==>
      s.netRetrans.None? && s.netDrop.None? && s.conntrackRatio.None?
    ensures AssessNetwork(s).status in {Congested, QualityOk, Unmeasured}
  {
  }

  lemma CpuIs(s: ResourceStats)
    ensures AssessCpu(s).status == Under <==> CpuIsShort(s)
    ensures AssessCpu(s).status == Unmeasured <==> !CpuIsJudged(s) && !CpuIsShort(s)
    ensures AssessCpu(s).status in {Under, Over, Optimal, Unmeasured}
  {
    if s.cpuCores.Some? && s.cpuCores.value > 0 {
      CpuVerdictSizes(s, 1);
    }
    QueueHighMeansSaturated(s);
    hide CpuTarget, CpuSaturated, CpuConfidence, QueueHigh;
  }

  lemma MemoryIs(s: ResourceStats)
    ensures AssessMemory(s).status == Under <==> MemoryIsShort(s)
    ensures AssessMemory(s).status == Unmeasured <==> s.memP95.None? && !s.oomOccurred
    ensures AssessMemory(s).status in {Under, Over, Optimal, Unmeasured}
  {
    MemoryUnderIff(s);
    hide MemTargetMb, MemUnderTarget, MemTriggers;
  }

  lemma CpuOversizedIs(s: ResourceStats)
    ensures AssessCpu(s).status == Over <==>
      CpuIsJudged(s) && !CpuIsShort(s) && s.cpuCores.value >= 2 && CpuFits(s, s.cpuCores.value - 1)
      && !(s.cpuPercoreMax.Some? && s.cpuPercoreMax.value >= 85.0)
  {
    CpuIs(s);
    CpuOverIff(s);
    hide AssessCpu;
  }

  lemma MemoryOversizedIs(s: ResourceStats)
    requires s.memTotalMb.Some? ==> s.memTotalMb.value >= 0
    ensures AssessMemory(s).status == Over <==>
      !MemoryIsShort(s) && s.memP95.Some? && s.memTotalMb.Some? && s.memTotalMb.value >= 2 && Peak(s) > 0.0
      && PeakFits(s.memTotalMb.value, Peak(s), s.memTotalMb.value - 1)
  {
    MemoryOverIff(s);
    hide AssessMemory;
  }

  lemma OversizedIs(s: ResourceStats)
    requires s.memTotalMb.Some? ==> s.memTotalMb.value >= 0
    requires !CpuIsShort(s) && !MemoryIsShort(s)
    ensures AssessCpu(s).status == Over || AssessMemory(s).status == Over <==> IsOversized(s)
  {
    hide AssessCpu, AssessMemory, CpuIsShort, MemoryIsShort, CpuFits, PeakFits;
    CpuOversizedIs(s);
    MemoryOversizedIs(s);
  }

  lemma ShortIs(s: ResourceStats)
    ensures UnderKinds(AssessAll(s)) != {} <==> IsShort(s)
    ensures Cpu in UnderKinds(AssessAll(s)) <==> CpuIsShort(s)
    ensures Memory in UnderKinds(AssessAll(s)) <==> MemoryIsShort(s)
    ensures DiskCapacity in UnderKinds(AssessAll(s)) <==> DiskIsFull(s)
    ensures DiskIo !in UnderKinds(AssessAll(s)) && Network !in UnderKinds(AssessAll(s))
  {
    CpuIs(s);
    MemoryIs(s);
    DiskCapacityIs(s);
    DiskIoIs(s);
    NetworkIs(s);
    hide AssessCpu, AssessMemory, AssessDiskCapacity, AssessDiskIo, AssessNetwork;
    hide CpuIsShort, MemoryIsShort, DiskIsFull;
    var res := AssessAll(s);
    assert Cpu in UnderKinds(res) <==> Rootable(res.cpu.status);
    assert Memory in UnderKinds(res) <==> Rootable(res.memory.status);
    assert DiskCapacity in UnderKinds(res) <==> Rootable(res.diskCapacity.status);
    assert DiskIo !in UnderKinds(res) by { assert !Rootable(res.diskIo.status); }
    assert Network !in UnderKinds(res) by { assert !Rootable(res.network.status); }
    hide UnderKinds;
    if k :| k in UnderKinds(res) {
      assert k == Cpu || k == Memory || k == DiskCapacity;
    }
  }

  /** Exactly one status, by the first of: short, neither CPU nor memory judged, idle, oversized. */
  lemma HostStatusIs(s: ResourceStats)
    requires s.memTotalMb.Some? ==> s.memTotalMb.value >= 0
    ensures var (status, judged) := (Rollup(s).hostStatus, CpuIsJudged(s) || s.memP95.Some?);
      && (status == HostUnder <==> IsShort(s))
      && (status == HostInsufficient <==> !IsShort(s) && !judged)
      && (status == HostIdle <==> !IsShort(s) && judged && IsIdle(s))
      && (status == HostOver <==> !IsShort(s) && judged && !IsIdle(s) && IsOversized(s))
      && (status == HostOptimal <==> !IsShort(s) && judged && !IsIdle(s) && !IsOversized(s))
  {
    ShortIs(s);
    CpuIs(s);
    MemoryIs(s);
    if !IsShort(s) {
      OversizedIs(s);
    }
    hide AssessCpu, AssessMemory, AssessDiskCapacity, AssessDiskIo, AssessNetwork, UnderKinds, IsOversized;
    hide CpuIsShort, MemoryIsShort, DiskIsFull;
  }

  // ---------------------------------------------------------------- why, and how far to trust it

  /** Less than 30 hours of history, or bursts of more than twice the average. */
  predicate IsImprecise(s: ResourceStats) {
    (s.historyHours.Some? && s.historyHours.value < 30.0) || (s.cpuBurstRatio.Some? && s.cpuBurstRatio.value > 2.0)
  }

  /** CPU names its utilization and its queue as reasons; it is uncovered without one of the two, biased by
      stolen time from 5 % on, and follows a rising trend. */
  lemma CpuEvidenceIs(s: ResourceStats)
    ensures var a := AssessCpu(s);
      && (CpuUtil in a.triggers <==>
            s.cpuCores.Some? && s.cpuCores.value > 0 && s.cpuP95.Some? && s.cpuP95.value >= 70.0)
      && (CpuSaturation in a.triggers <==> QueueHigh(s))
      && (forall t | t in a.triggers :: t == CpuUtil || t == CpuSaturation)
      && a.confidence == ConfidenceNote(
           IsImprecise(s),
           s.cpuP95.None? || s.cpuCores.None? || s.cpuCores.value <= 0 || Queue(s).None?,
           s.cpuStealP95.Some? && s.cpuStealP95.value >= 5.0,
           s.utilTrendRising == Some(true))
  {
    QueueHighMeansSaturated(s);
    hide CpuTarget, QueueHigh;
  }

  lemma MemoryEvidenceIs(s: ResourceStats)
    ensures var a := AssessMemory(s);
      && (MemUtil in a.triggers <==> s.memP95.Some? && s.memP95.value >= 90.0)
      && (MemSaturation in a.triggers <==> Paging(s))
      && (MemOom in a.triggers <==> s.oomOccurred)
      && (forall t | t in a.triggers :: t == MemUtil || t == MemSaturation || t == MemOom)
      && a.confidence == ConfidenceNote(
           IsImprecise(s), s.memP95.None? && !s.oomOccurred, false, s.utilTrendRising == Some(true))
  {
    PagingIsActive(s);
    hide MemTargetMb, MemUnderTarget, Paging;
  }

  lemma DiskEvidenceIs(s: ResourceStats)
    ensures var (space, io) := (AssessDiskCapacity(s), AssessDiskIo(s));
      && space.triggers == (if DiskIsFull(s) then [DiskCapacityLow] else [])
      && io.triggers == (if IoIsSlow(s) then [DiskIoSlow] else [])
      && space.confidence == ConfidenceNote(IsImprecise(s), space.status == Unmeasured, false, false)
      && io.confidence == ConfidenceNote(IsImprecise(s), io.status == Unmeasured, true, false)
      && io.sizingTarget == None && io.sizingFloor == None && space.sizingFloor == None
  {
    DiskCapacityIs(s);
    DiskIoIs(s);
    hide DiskIsFull, IoIsSlow;
  }

  lemma NetworkEvidenceIs(s: ResourceStats)
    ensures var (a, busy) := (AssessNetwork(s), s.netAvgKbytes.None? || s.netAvgKbytes.value >= 10.0);
      && (NetRetrans in a.triggers <==> busy && s.netRetrans.Some? && s.netRetrans.value > 1.0)
      && (NetDrop in a.triggers <==> busy && s.netDrop.Some? && s.netDrop.value > 0.5)
      && (NetConntrack in a.triggers <==> s.conntrackRatio.Some? && s.conntrackRatio.value >= 0.8)
      && (forall t | t in a.triggers :: t == NetRetrans || t == NetDrop || t == NetConntrack)
      && a.confidence == ConfidenceNote(IsImprecise(s), a.status == Unmeasured, false, false)
      && a.sizingTarget == None && a.sizingFloor == None
  {
  }

  // ---------------------------------------------------------------- cause and symptoms

  /** Memory pages while the disk is slow or CPU is short: they wait for memory. */
  predicate MemoryIsBlamed(s: ResourceStats) {
    Paging(s) && (IoIsSlow(s) || CpuIsShort(s))
  }

  /** CPU is short behind a slow disk with blocked processes. */
  predicate DiskIsBlamed(s: ResourceStats) {
    IoIsSlow(s) && CpuIsShort(s) && s.procsBlockedP95.Some? && s.procsBlockedP95.value >= 1.0
  }

  /** The blamed resource, or the first short one of memory, CPU and disk space; its symptoms are the slow
      disk, blamed on memory only, and the short CPU. */
  lemma RootCauseIs(s: ResourceStats)
    ensures var (root, symptoms) := (Rollup(s).rootCause, Rollup(s).symptomOfRoot);
      && (root == Some(DiskIo) <==> DiskIsBlamed(s) && !MemoryIsBlamed(s))
      && (root == Some(Memory) <==> MemoryIsShort(s) && (MemoryIsBlamed(s) || !DiskIsBlamed(s)))
      && (root == Some(Cpu) <==> CpuIsShort(s) && !MemoryIsShort(s) && !DiskIsBlamed(s))
      && (root == Some(DiskCapacity) <==> DiskIsFull(s) && !MemoryIsShort(s) && !CpuIsShort(s))
      && (root == None <==> !IsShort(s))
      && (DiskIo in symptoms <==> MemoryIsBlamed(s) && IoIsSlow(s))
      && (Cpu in symptoms <==> CpuIsShort(s) && (MemoryIsBlamed(s) || DiskIsBlamed(s)))
      && (symptoms == [] || symptoms == [DiskIo] || symptoms == [Cpu] || symptoms == [DiskIo, Cpu])
  {
    ShortIs(s);
    CpuIs(s);
    MemoryIs(s);
    DiskIoIs(s);
    PagingIsActive(s);
    hide AssessCpu, AssessMemory, AssessDiskCapacity, AssessDiskIo, AssessNetwork, UnderKinds, MemPagingActive, Paging;
    hide CpuIsShort, MemoryIsShort, DiskIsFull, IoIsSlow;
    PagingMeansShort(s);
    FirstOfFour(UnderKinds(AssessAll(s)));
  }

  lemma PagingMeansShort(s: ResourceStats)
    ensures Paging(s) ==> MemoryIsShort(s)
  {
  }

  lemma FirstOfFour(under: set<ResourceKind>)
    ensures FirstIn(ROOT_ORDER, under) ==
      if Memory in under then Some(Memory) else if DiskIo in under then Some(DiskIo)
      else if Cpu in under then Some(Cpu) else if DiskCapacity in under then Some(DiskCapacity) else None
  {
    var rest := [DiskIo, Cpu, DiskCapacity];
    assert ROOT_ORDER[1..] == rest && rest[1..] == [Cpu, DiskCapacity] && rest[1..][1..] == [DiskCapacity];
    assert FirstIn([DiskCapacity], under) == if DiskCapacity in under then Some(DiskCapacity) else None by {
      assert [DiskCapacity][1..] == [];
    }
    assert FirstIn(rest[1..], under) == if Cpu in under then Some(Cpu) else FirstIn([DiskCapacity], under);
    assert FirstIn(rest, under) == if DiskIo in under then Some(DiskIo) else FirstIn(rest[1..], under);
  }

  /** The short resources in the order they are prescribed. */
  function ShortKinds(s: ResourceStats): seq<ResourceKind> {
    (if MemoryIsShort(s) then [Memory] else [])
    + ((if CpuIsShort(s) then [Cpu] else []) + if DiskIsFull(s) then [DiskCapacity] else [])
  }

  lemma PrescriptionIs(s: ResourceStats)
    ensures PrescribedUnderKinds(Rollup(s)) == ShortKinds(s)
  {
    ShortIs(s);
    hide AssessCpu, AssessMemory, AssessDiskCapacity, AssessDiskIo, AssessNetwork, UnderKinds;
    hide CpuIsShort, MemoryIsShort, DiskIsFull;
    FilterOfFive(UnderKinds(AssessAll(s)));
  }

  function Kept(k: ResourceKind, kinds: set<ResourceKind>): seq<ResourceKind> {
    if k in kinds then [k] else []
  }

  lemma FilterOfFive(kinds: set<ResourceKind>)
    ensures Filter(UNDER_ORDER, kinds) ==
      Kept(Memory, kinds) + (Kept(Cpu, kinds) + (Kept(DiskIo, kinds) + (Kept(DiskCapacity, kinds)
        + (Kept(Network, kinds) + []))))
  {
    var io, space, net := [DiskIo, DiskCapacity, Network], [DiskCapacity, Network], [Network];
    assert UNDER_ORDER == [Memory] + ([Cpu] + io) && io == [DiskIo] + space && space == [DiskCapacity] + net;
    assert net == [Network] + [] && Filter([], kinds) == [];
    hide Filter, Kept;
    FilterCons(Memory, [Cpu] + io, kinds);
    FilterCons(Cpu, io, kinds);
    FilterCons(DiskIo, space, kinds);
    FilterCons(DiskCapacity, net, kinds);
    FilterCons(Network, [], kinds);
  }

  lemma FilterCons(k: ResourceKind, rest: seq<ResourceKind>, kinds: set<ResourceKind>)
    ensures Filter([k] + rest, kinds) == Kept(k, kinds) + Filter(rest, kinds)
  {
    assert ([k] + rest)[1..] == rest;
  }

  /** The displayed cause: the blamed resource with its symptoms, or else the short resources side by side. */
  lemma DisplayIs(s: ResourceStats)
    ensures RootCauseDisplay(Rollup(s)) ==
      if ShortKinds(s) == [] then NoShortage
      else if MemoryIsBlamed(s) then
        CausedBy(Memory, (if IoIsSlow(s) then [DiskIo] else []) + if CpuIsShort(s) then [Cpu] else [])
      else if DiskIsBlamed(s) then CausedBy(DiskIo, [Cpu])
      else Shortages(ShortKinds(s))
  {
    PrescriptionIs(s);
    RootCauseIs(s);
    PagingMeansShort(s);
    hide Rollup, CpuIsShort, MemoryIsShort, DiskIsFull, IoIsSlow, Paging, PrescribedUnderKinds;
  }

  /** The flags the host carries along. */
  lemma RollupCarries(s: ResourceStats)
    ensures Rollup(s).networkCongested <==> AssessNetwork(s).status == Congested
    ensures Rollup(s).sampleSufficiency == s.sampleSufficiency
    ensures Rollup(s).resources.cpu == AssessCpu(s) && Rollup(s).resources.memory == AssessMemory(s)
    ensures Rollup(s).resources.diskCapacity == AssessDiskCapacity(s)
    ensures Rollup(s).resources.diskIo == AssessDiskIo(s) && Rollup(s).resources.network == AssessNetwork(s)
  {
  }
}
