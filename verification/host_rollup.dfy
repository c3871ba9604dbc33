/** One host: the five verdicts rolled up into a status, a root cause and the prescribed shortages. */
module HostRollup {
  import opened Wrappers
  import opened Recommendation
  import MountCapacity

  datatype Resources = Resources(
    cpu: ResourceAssessment, memory: ResourceAssessment, diskCapacity: ResourceAssessment,
    diskIo: ResourceAssessment, network: ResourceAssessment)
  {
    function Get(k: ResourceKind): ResourceAssessment {
      match k
      case Cpu => cpu
      case Memory => memory
      case DiskCapacity => diskCapacity
      case DiskIo => diskIo
      case Network => network
    }
  }

  datatype HostStatus = HostUnder | HostIdle | HostOver | HostOptimal | HostInsufficient

  datatype HostAssessment = HostAssessment(
    resources: Resources,
    rootCause: Option<ResourceKind>,
    symptomOfRoot: seq<ResourceKind>,
    hostStatus: HostStatus,
    networkCongested: bool,
    sampleSufficiency: Option<real>)

  const ROOT_ORDER := [Memory, DiskIo, Cpu, DiskCapacity]
  const UNDER_ORDER := [Memory, Cpu, DiskIo, DiskCapacity, Network]

  function AssessAll(s: ResourceStats): Resources {
    Resources(AssessCpu(s), AssessMemory(s), AssessDiskCapacity(s), AssessDiskIo(s), AssessNetwork(s))
  }

  predicate Rootable(status: ResourceStatus) {
    status == Under || status == Filling
  }

  function UnderKinds(res: Resources): set<ResourceKind> {
    set k: ResourceKind | Rootable(res.Get(k).status)
  }

  predicate Unjudged(a: ResourceAssessment) {
    a.status == Unmeasured || a.status == Insufficient
  }

  /** CPU, network and disk activity all measured quiet; unmeasured disk activity does not count. */
  predicate Quiescent(s: ResourceStats) {
    && s.cpuP95.Some? && s.cpuP95.value <= IDLE_CPU_P95_PCT
    && s.netAvgKbytes.Some? && s.netAvgKbytes.value * 8.0 / 1000.0 <= IDLE_NET_MBPS
    && !Above(s.diskIopsBaseline, IDLE_DISK_IOPS)
  }

  function StatusOf(s: ResourceStats, res: Resources, under: set<ResourceKind>): HostStatus {
    if under != {} then HostUnder
    else if Unjudged(res.cpu) && Unjudged(res.memory) then HostInsufficient
    else if Quiescent(s) then HostIdle
    else if res.cpu.status == Over || res.memory.status == Over then HostOver
    else HostOptimal
  }

  /** The first kind of the order that is in the set. */
  function FirstIn(order: seq<ResourceKind>, kinds: set<ResourceKind>): Option<ResourceKind> {
    if order == [] then None else if order[0] in kinds then Some(order[0]) else FirstIn(order[1..], kinds)
  }

  predicate MemoryDriven(s: ResourceStats, res: Resources) {
    res.memory.status == Under && MemPagingActive(s) && (res.diskIo.status == IoBound || res.cpu.status == Under)
  }

  predicate DiskDriven(s: ResourceStats, res: Resources) {
    res.diskIo.status == IoBound && res.cpu.status == Under
      && AtLeast(s.procsBlockedP95, PROCS_BLOCKED_DSTATE_SATURATION)
  }

  function RootCauseOf(s: ResourceStats, res: Resources): Option<ResourceKind> {
    if MemoryDriven(s, res) then Some(Memory)
    else if DiskDriven(s, res) then Some(DiskIo)
    else FirstIn(ROOT_ORDER, UnderKinds(res))
  }

  function SymptomsOf(s: ResourceStats, res: Resources): seq<ResourceKind> {
    if MemoryDriven(s, res) then
      (if res.diskIo.status == IoBound || DiskIo in UnderKinds(res) then [DiskIo] else [])
      + (if Cpu in UnderKinds(res) then [Cpu] else [])
    else if DiskDriven(s, res) then if Cpu in UnderKinds(res) then [Cpu] else []
    else []
  }

  function Rollup(s: ResourceStats): HostAssessment {
    var res := AssessAll(s);
    HostAssessment(res, RootCauseOf(s, res), SymptomsOf(s, res), StatusOf(s, res, UnderKinds(res)),
                   res.network.status == Congested, s.sampleSufficiency)
  }

  method RollupHost(s: ResourceStats) returns (host: HostAssessment)
    ensures host == Rollup(s)
  {
    hide AssessCpu, AssessMemory, AssessDiskCapacity, AssessDiskIo, AssessNetwork, MemSaturated, StatusOf;
    var res := AssessAll(s);
    host := HostAssessment(res, None, [], HostOptimal, false, None);
    var under := UnderKinds(res);
    var memPressure, cpuPressure := res.memory.status == Under, res.cpu.status == Under;
    var diskIoPressure := res.diskIo.status == IoBound;
    var blockedHigh := AtLeast(s.procsBlockedP95, PROCS_BLOCKED_DSTATE_SATURATION);
    if memPressure && MemPagingActive(s) && (diskIoPressure || cpuPressure) {
      host := host.(rootCause := Some(Memory));
      var symptoms := [];
      if DiskIo in under || diskIoPressure { symptoms := symptoms + [DiskIo]; }
      if Cpu in under { symptoms := symptoms + [Cpu]; }
      host := host.(symptomOfRoot := symptoms);
    } else if diskIoPressure && cpuPressure && blockedHigh {
      host := host.(rootCause := Some(DiskIo), symptomOfRoot := if Cpu in under then [Cpu] else []);
    } else if under != {} {
      for k := 0 to |ROOT_ORDER|
        invariant host.rootCause.None?
        invariant host == HostAssessment(res, None, [], HostOptimal, false, None)
        invariant FirstIn(ROOT_ORDER, under) == FirstIn(ROOT_ORDER[k..], under)
      {
        if ROOT_ORDER[k] in under {
          host := host.(rootCause := Some(ROOT_ORDER[k]));
          break;
        }
      }
    } else {
      NoneIn(ROOT_ORDER, under);
    }
    host := host.(networkCongested := res.network.status == Congested, sampleSufficiency := s.sampleSufficiency,
                  hostStatus := StatusOf(s, res, under));
  }

  lemma {:induction false} NoneIn(order: seq<ResourceKind>, kinds: set<ResourceKind>)
    ensures FirstIn(order, kinds).None? <==> forall k | k in order :: k !in kinds
    ensures FirstIn(order, kinds).Some? ==> FirstIn(order, kinds).value in kinds && FirstIn(order, kinds).value in order
  {
    if order != [] {
      NoneIn(order[1..], kinds);
      assert order == [order[0]] + order[1..];
    }
  }

  // ---------------------------------------------------------------- prescription and display

  function Filter(order: seq<ResourceKind>, kinds: set<ResourceKind>): seq<ResourceKind> {
    if order == [] then [] else (if order[0] in kinds then [order[0]] else []) + Filter(order[1..], kinds)
  }

  lemma {:induction false} FilterKeeps(order: seq<ResourceKind>, kinds: set<ResourceKind>, k: ResourceKind)
    ensures k in Filter(order, kinds) <==> k in order && k in kinds
  {
    if order != [] {
      FilterKeeps(order[1..], kinds, k);
      assert order == [order[0]] + order[1..];
    }
  }

  function PrescribedUnderKinds(host: HostAssessment): seq<ResourceKind> {
    Filter(UNDER_ORDER, UnderKinds(host.resources))
  }

  /** The root-cause column without its labels. */
  datatype Diagnosis = NoShortage | CausedBy(root: ResourceKind, symptoms: seq<ResourceKind>)
    | Shortages(kinds: seq<ResourceKind>)

  function RootCauseDisplay(host: HostAssessment): Diagnosis {
    var under := PrescribedUnderKinds(host);
    if under == [] then NoShortage
    else if host.symptomOfRoot != [] && host.rootCause.Some? then CausedBy(host.rootCause.value, host.symptomOfRoot)
    else Shortages(under)
  }

  lemma UnderKindsAreSizeable(s: ResourceStats)
    ensures UnderKinds(AssessAll(s)) <= {Cpu, Memory, DiskCapacity}
  {
  }

  lemma EveryKindIsListed(k: ResourceKind)
    ensures k in UNDER_ORDER
  {
    assert UNDER_ORDER[0] == Memory && UNDER_ORDER[1] == Cpu && UNDER_ORDER[2] == DiskIo;
    assert UNDER_ORDER[3] == DiskCapacity && UNDER_ORDER[4] == Network;
    assert k == Memory || k == Cpu || k == DiskIo || k == DiskCapacity || k == Network;
  }

  /** Nothing observed is suppressed: a shortage is prescribed exactly when its resource is short,
      whatever the root cause is. */
  lemma PrescribesEveryShortage(s: ResourceStats, k: ResourceKind)
    ensures k in PrescribedUnderKinds(Rollup(s)) <==> Rootable(AssessAll(s).Get(k).status)
  {
    FilterKeeps(UNDER_ORDER, UnderKinds(AssessAll(s)), k);
    EveryKindIsListed(k);
  }

  /** The status, the root cause, the prescription and the display never disagree about a shortage. */
  lemma ShortageViewsAgree(s: ResourceStats)
    ensures Rollup(s).hostStatus == HostUnder <==> Rollup(s).rootCause.Some?
    ensures Rollup(s).hostStatus == HostUnder <==> PrescribedUnderKinds(Rollup(s)) != []
    ensures Rollup(s).hostStatus == HostUnder <==> RootCauseDisplay(Rollup(s)) != NoShortage
  {
    UnderKindsAreSizeable(s);
    RootedIffShort(s, AssessAll(s));
    PrescribedIffShort(UnderKinds(AssessAll(s)));
  }

  lemma RootedIffShort(s: ResourceStats, res: Resources)
    requires UnderKinds(res) <= {Cpu, Memory, DiskCapacity}
    ensures RootCauseOf(s, res).Some? <==> UnderKinds(res) != {}
  {
    NoneIn(ROOT_ORDER, UnderKinds(res));
    assert ROOT_ORDER[0] == Memory && ROOT_ORDER[2] == Cpu && ROOT_ORDER[3] == DiskCapacity;
    assert Memory in UnderKinds(res) <==> Rootable(res.Get(Memory).status);
    assert Cpu in UnderKinds(res) <==> Rootable(res.Get(Cpu).status);
  }

  lemma PrescribedIffShort(under: set<ResourceKind>)
    ensures Filter(UNDER_ORDER, under) != [] <==> under != {}
  {
    if Filter(UNDER_ORDER, under) != [] {
      FilterKeeps(UNDER_ORDER, under, Filter(UNDER_ORDER, under)[0]);
    }
    if under != {} {
      var k :| k in under;
      EveryKindIsListed(k);
      FilterKeeps(UNDER_ORDER, under, k);
    }
  }

  /** A root cause is a resource under observed pressure, and so are its symptoms; disk I/O is blamed
      only with blocked processes behind a short CPU. */
  lemma RootCauseIsObserved(s: ResourceStats)
    requires Rollup(s).rootCause.Some?
    ensures var host, root := Rollup(s), Rollup(s).rootCause.value;
      && (root == DiskIo ==> DiskDriven(s, host.resources))
      && (root != DiskIo ==> Rootable(host.resources.Get(root).status))
      && (forall k | k in host.symptomOfRoot :: k != root && UnderPressure(host.resources, k))
  {
    UnderKindsAreSizeable(s);
    RootIsPressured(s, AssessAll(s));
  }

  predicate UnderPressure(res: Resources, k: ResourceKind) {
    (k == Cpu && Rootable(res.cpu.status)) || (k == DiskIo && res.diskIo.status == IoBound)
  }

  lemma RootIsPressured(s: ResourceStats, res: Resources)
    requires UnderKinds(res) <= {Cpu, Memory, DiskCapacity} && RootCauseOf(s, res).Some?
    ensures var root := RootCauseOf(s, res).value;
      && (root == DiskIo ==> DiskDriven(s, res))
      && (root != DiskIo ==> Rootable(res.Get(root).status))
      && (forall k | k in SymptomsOf(s, res) :: k != root && UnderPressure(res, k))
  {
    NoneIn(ROOT_ORDER, UnderKinds(res));
    assert Cpu in UnderKinds(res) <==> Rootable(res.Get(Cpu).status);
  }

  // ---------------------------------------------------------------- the status in raw statistics

  /** Enough work for more cores: 70 % and more, or a saturated run queue where that was not measured. */
  predicate CpuShort(s: ResourceStats) {
    && s.cpuCores.Some? && s.cpuCores.value > 0
    && (if s.cpuP95.Some? then s.cpuP95.value >= RS_CPU_UNDER_PCT
        else AtLeast(CpuSaturationIndex(RunQueueValue(s), s.cpuCores, s.os), 1.0))
  }

  /** A shortage of CPU, memory, bytes or inodes. */
  predicate Short(s: ResourceStats) {
    || CpuShort(s)
    || AtLeast(s.memP95, RS_MEM_UNDER_PCT) || s.oomOccurred
    || MountCapacity.Exhausting(s.diskRunway, s.diskUsed)
    || MountCapacity.Exhausting(s.inodeRunway, s.inodeUsed)
  }

  predicate CpuOversized(s: ResourceStats) {
    s.cpuP95.Some? && s.cpuCores.Some? && FitsOneCoreLess(s.cpuP95.value, s.cpuCores.value) && !PercoreBusy(s)
  }

  predicate MemoryOversized(s: ResourceStats) {
    s.memP95.Some? && s.memTotalMb.Some? && FitsOneMbLess(NearPeak(s).value, s.memTotalMb.value)
  }

  predicate CpuMeasured(s: ResourceStats) {
    s.cpuP95.Some? && s.cpuCores.Some? && s.cpuCores.value > 0
  }

  /** Nothing short, CPU or memory measured, not idle and neither oversized. */
  predicate OptimalByStatistics(s: ResourceStats) {
    && !Short(s) && (CpuMeasured(s) || s.memP95.Some?)
    && !Quiescent(s) && !CpuOversized(s) && !MemoryOversized(s)
  }

  lemma CpuStatusIff(s: ResourceStats)
    ensures AssessCpu(s).status == Under <==> CpuShort(s)
    ensures !CpuShort(s) ==> (Unjudged(AssessCpu(s)) <==> !CpuMeasured(s))
  {
    if s.cpuCores.Some? && s.cpuCores.value > 0 {
      SaturationMatchesIndex(s);
      if s.cpuP95.Some? { CpuUnderIff(s); }
    }
  }

  lemma MemoryStatusIff(s: ResourceStats)
    ensures AssessMemory(s).status != Under ==> (Unjudged(AssessMemory(s)) <==> s.memP95.None?)
  {
  }

  lemma ShortIff(s: ResourceStats)
    ensures UnderKinds(AssessAll(s)) != {} <==> Short(s)
  {
    UnderKindsAreSizeable(s);
    CpuUnderOnly(s);
    CpuStatusIff(s);
    MemoryUnderIff(s);
    MountCapacity.HostFillsLikeItsMounts(s);
    ShortKinds(AssessAll(s));
  }

  lemma ShortKinds(res: Resources)
    requires UnderKinds(res) <= {Cpu, Memory, DiskCapacity}
    ensures UnderKinds(res) != {} <==>
      Rootable(res.cpu.status) || Rootable(res.memory.status) || Rootable(res.diskCapacity.status)
  {
    assert Cpu in UnderKinds(res) <==> Rootable(res.Get(Cpu).status);
    assert Memory in UnderKinds(res) <==> Rootable(res.Get(Memory).status);
    assert DiskCapacity in UnderKinds(res) <==> Rootable(res.Get(DiskCapacity).status);
  }

  /** When a host is optimal, told from its statistics alone. */
  lemma HostOptimalIff(s: ResourceStats)
    requires s.memTotalMb.Some? ==> s.memTotalMb.value >= 0
    ensures Rollup(s).hostStatus == HostUnder <==> Short(s)
    ensures Rollup(s).hostStatus == HostOptimal <==> OptimalByStatistics(s)
  {
    ShortIff(s);
    if !Short(s) {
      CpuStatusIff(s);
      MemoryUnderIff(s);
      MemoryStatusIff(s);
      CpuOverIff(s);
      MemoryOverIff(s);
    }
  }

  // ---------------------------------------------------------------- severity is monotone in load

  function Rank(status: HostStatus): nat {
    match status
    case HostIdle => 0
    case HostInsufficient => 0
    case HostOver => 1
    case HostOptimal => 2
    case HostUnder => 3
  }

  /** The status of `b` is at least as severe. */
  predicate NotLowered(a: ResourceStats, b: ResourceStats) {
    Rank(Rollup(a).hostStatus) <= Rank(Rollup(b).hostStatus)
  }

  predicate NoLess(a: Option<real>, b: Option<real>) {
    (a.None? <==> b.None?) && (a.Some? ==> a.value <= b.value)
  }

  /** The same hardware and the same fields measured, with every load signal at least as high in `b`
      and every runway at most as long. */
  predicate Heavier(a: ResourceStats, b: ResourceStats) {
    && a.cpuCores == b.cpuCores && a.os == b.os && a.memTotalMb == b.memTotalMb
    && NoLess(a.cpuP95, b.cpuP95) && NoLess(a.cpuPercoreMax, b.cpuPercoreMax)
    && NoLess(a.procsRunningP95, b.procsRunningP95) && NoLess(a.cpuRunQueueP95, b.cpuRunQueueP95)
    && NoLess(a.memP95, b.memP95) && NoLess(a.memNearPeak, b.memNearPeak)
      && NoLess(a.memPagesInputP95, b.memPagesInputP95)
    && (a.memSwapPaging ==> b.memSwapPaging) && (a.oomOccurred ==> b.oomOccurred)
    && NoLess(a.diskUsed, b.diskUsed) && NoLess(a.inodeUsed, b.inodeUsed)
    && NoLess(b.diskRunway, a.diskRunway) && NoLess(b.inodeRunway, a.inodeRunway)
    && NoLess(a.netAvgKbytes, b.netAvgKbytes) && NoLess(a.diskIopsBaseline, b.diskIopsBaseline)
  }

  lemma CpuSaturationGrows(a: ResourceStats, b: ResourceStats)
    requires Heavier(a, b)
    ensures CpuSaturated(a) == Some(true) ==> CpuSaturated(b) == Some(true)
    ensures CpuSaturated(a).None? <==> CpuSaturated(b).None?
  {
    if a.cpuCores.Some? && a.cpuCores.value > 0 && RunQueueValue(a).Some? {
      QuotientGrows(RunQueueValue(a).value, RunQueueValue(b).value, a.cpuCores.value as real);
    }
  }

  lemma QuotientGrows(x: real, y: real, n: real)
    requires x <= y && n > 0.0
    ensures x / n <= y / n
  {
    assert y == y / n * n;
    Ratio(x, n, y / n);
  }

  lemma CpuPressureGrows(a: ResourceStats, b: ResourceStats)
    requires Heavier(a, b)
    ensures CpuSaturated(a) == Some(true) ==> CpuSaturated(b) == Some(true)
    ensures AssessCpu(a).status == Under ==> AssessCpu(b).status == Under
    ensures AssessCpu(b).status == Unmeasured ==> AssessCpu(a).status == Unmeasured
    ensures AssessCpu(b).status == Over ==> AssessCpu(a).status == Over
  {
    CpuSaturationGrows(a, b);
    hide CpuSaturated, CpuTarget, CpuConfidence, FitsOneCoreLess;
    if a.cpuCores.Some? && a.cpuCores.value > 0 && a.cpuP95.Some? {
      CpuUnderIff(a);
      CpuUnderIff(b);
      CpuOverIff(a);
      CpuOverIff(b);
      FitsMonotone(a.cpuP95.value, b.cpuP95.value, a.cpuCores.value);
    }
  }

  lemma FitsMonotone(u: real, v: real, c: int)
    requires u <= v && c > 0
    ensures FitsOneCoreLess(v, c) ==> FitsOneCoreLess(u, c)
  {
    if c < 2 { return; }
    MulKeepsOrder(u, v, c as real);
    Ratio(v * c as real, (c - 1) as real, RS_CPU_SIZING_TARGET_PCT);
    Ratio(u * c as real, (c - 1) as real, RS_CPU_SIZING_TARGET_PCT);
  }

  lemma MemoryPressureGrows(a: ResourceStats, b: ResourceStats)
    requires Heavier(a, b) && (a.memTotalMb.Some? ==> a.memTotalMb.value >= 0)
    ensures AssessMemory(a).status == Under ==> AssessMemory(b).status == Under
    ensures AssessMemory(b).status == Unmeasured ==> AssessMemory(a).status == Unmeasured
    ensures AssessMemory(b).status == Over && !NearPeakGap(a) ==> AssessMemory(a).status == Over
  {
    MemoryUnderIff(a);
    MemoryUnderIff(b);
    MemoryOverIff(a);
    MemoryOverIff(b);
    if a.memP95.Some? && a.memTotalMb.Some? {
      MemoryFitsMonotone(NearPeak(a).value, NearPeak(b).value, a.memTotalMb.value);
    }
  }

  lemma MemoryFitsMonotone(p: real, q: real, total: int)
    requires p <= q
    ensures FitsOneMbLess(q, total) && p > 0.0 ==> FitsOneMbLess(p, total)
  {
    if total < 2 { return; }
    MulKeepsOrder(p, q, total as real);
    Ratio(total as real * q, (total - 1) as real, RS_MEM_SIZING_TARGET_PCT);
    Ratio(total as real * p, (total - 1) as real, RS_MEM_SIZING_TARGET_PCT);
  }

  /** The memory peak is measured as 0 on a host that could be smaller: no target comes out of it. */
  predicate NearPeakGap(s: ResourceStats) {
    s.memP95.Some? && NearPeak(s).value <= 0.0 && s.memTotalMb.Some? && s.memTotalMb.value >= 2
  }

  lemma DiskPressureGrows(a: ResourceStats, b: ResourceStats)
    requires Heavier(a, b)
    ensures AssessDiskCapacity(a).status == Filling ==> AssessDiskCapacity(b).status == Filling
  {
  }

  /** Raising load never lowers a status, unless the lighter host is 'optimal' with a zero memory peak. */
  lemma SeverityGrows(a: ResourceStats, b: ResourceStats)
    requires Heavier(a, b) && (a.memTotalMb.Some? ==> a.memTotalMb.value >= 0)
    requires OptimalByStatistics(a) ==> !NearPeakGap(a)
    ensures NotLowered(a, b)
  {
    ShortagesGrow(a, b);
    QuietStaysQuiet(a, b);
    MeasurementsStay(a, b);
    ExcessStays(a, b);
    RankGrows(a, b, AssessAll(a), AssessAll(b));
  }

  lemma MeasurementsStay(a: ResourceStats, b: ResourceStats)
    requires Heavier(a, b) && (a.memTotalMb.Some? ==> a.memTotalMb.value >= 0)
    ensures Unjudged(AssessCpu(b)) && Unjudged(AssessMemory(b)) ==> Unjudged(AssessCpu(a)) && Unjudged(AssessMemory(a))
  {
    CpuPressureGrows(a, b);
    MemoryPressureGrows(a, b);
  }

  lemma ExcessStays(a: ResourceStats, b: ResourceStats)
    requires Heavier(a, b) && (a.memTotalMb.Some? ==> a.memTotalMb.value >= 0)
    requires OptimalByStatistics(a) ==> !NearPeakGap(a)
    ensures Rollup(a).hostStatus == HostOptimal && (AssessCpu(b).status == Over || AssessMemory(b).status == Over)
      ==> AssessCpu(a).status == Over || AssessMemory(a).status == Over
  {
    HostOptimalIff(a);
    CpuPressureGrows(a, b);
    MemoryPressureGrows(a, b);
  }

  lemma RankGrows(a: ResourceStats, b: ResourceStats, ra: Resources, rb: Resources)
    requires UnderKinds(ra) <= UnderKinds(rb)
    requires Quiescent(b) ==> Quiescent(a)
    requires UnderKinds(rb) == {} && Unjudged(rb.cpu) && Unjudged(rb.memory) ==> Unjudged(ra.cpu) && Unjudged(ra.memory)
    requires StatusOf(a, ra, UnderKinds(ra)) == HostOptimal && (rb.cpu.status == Over || rb.memory.status == Over) ==>
      ra.cpu.status == Over || ra.memory.status == Over
    ensures Rank(StatusOf(a, ra, UnderKinds(ra))) <= Rank(StatusOf(b, rb, UnderKinds(rb)))
  {
  }

  lemma ShortagesGrow(a: ResourceStats, b: ResourceStats)
    requires Heavier(a, b) && (a.memTotalMb.Some? ==> a.memTotalMb.value >= 0)
    ensures UnderKinds(AssessAll(a)) <= UnderKinds(AssessAll(b))
  {
    UnderKindsAreSizeable(a);
    CpuPressureGrows(a, b);
    MemoryPressureGrows(a, b);
    DiskPressureGrows(a, b);
    CpuUnderOnly(a);
    KindsGrow(AssessAll(a), AssessAll(b));
  }

  lemma CpuUnderOnly(s: ResourceStats)
    ensures AssessCpu(s).status != Filling && AssessMemory(s).status != Filling && AssessDiskCapacity(s).status != Under
  {
  }

  lemma KindsGrow(ra: Resources, rb: Resources)
    requires UnderKinds(ra) <= {Cpu, Memory, DiskCapacity}
    requires Rootable(ra.cpu.status) ==> Rootable(rb.cpu.status)
    requires Rootable(ra.memory.status) ==> Rootable(rb.memory.status)
    requires Rootable(ra.diskCapacity.status) ==> Rootable(rb.diskCapacity.status)
    ensures UnderKinds(ra) <= UnderKinds(rb)
  {
    forall k | k in UnderKinds(ra) ensures k in UnderKinds(rb) {
      assert k == Cpu || k == Memory || k == DiskCapacity;
      assert Rootable(rb.Get(k).status);
    }
  }

  lemma QuietStaysQuiet(a: ResourceStats, b: ResourceStats)
    requires Heavier(a, b)
    ensures Quiescent(b) ==> Quiescent(a)
  {
  }

  /** The heaviest-looking step that still breaks monotonicity: the same host with a peak of 1 %. */
  function WithPeak(s: ResourceStats): ResourceStats {
    if s.memNearPeak.Some? then s.(memNearPeak := Some(1.0)) else s.(memP95 := Some(1.0))
  }

  lemma GapBreaksMonotonicity(s: ResourceStats)
    requires OptimalByStatistics(s) && NearPeakGap(s)
    ensures Heavier(s, WithPeak(s)) && !NotLowered(s, WithPeak(s))
  {
    HostOptimalIff(s);
    PeakIsHeavier(s);
    assert Rootable(AssessAll(s).Get(Memory).status) <==> Memory in UnderKinds(AssessAll(s));
    assert AssessAll(s).Get(Memory) == AssessMemory(s);
    PeakMakesOver(s);
    PeakTouchesMemoryOnly(s);
    SameButMemory(s, WithPeak(s), AssessAll(s), AssessAll(WithPeak(s)));
  }

  lemma PeakIsHeavier(s: ResourceStats)
    requires NearPeakGap(s)
    ensures Heavier(s, WithPeak(s))
  {
  }

  lemma PeakMakesOver(s: ResourceStats)
    requires NearPeakGap(s) && AssessMemory(s).status != Under
    ensures AssessMemory(WithPeak(s)).status == Over
  {
    MemoryUnderIff(s);
    Ratio(s.memTotalMb.value as real, s.memTotalMb.value as real - 1.0, RS_MEM_SIZING_TARGET_PCT);
    MemoryOverIff(WithPeak(s));
  }

  /** The two hosts differ at most in the memory statistics. */
  predicate SameElsewhere(s: ResourceStats, t: ResourceStats) {
    t == s.(memP95 := t.memP95, memNearPeak := t.memNearPeak)
  }

  lemma SameCpu(s: ResourceStats, t: ResourceStats)
    requires SameElsewhere(s, t)
    ensures AssessCpu(t) == AssessCpu(s)
  {
    assert CpuSaturated(t) == CpuSaturated(s) && CpuConfidence(t) == CpuConfidence(s)
      && CpuTriggers(t) == CpuTriggers(s);
    assert s.cpuCores.Some? ==> CpuTarget(t) == CpuTarget(s);
  }

  lemma SameDisks(s: ResourceStats, t: ResourceStats)
    requires SameElsewhere(s, t)
    ensures AssessDiskCapacity(t) == AssessDiskCapacity(s) && AssessDiskIo(t) == AssessDiskIo(s)
  {
  }

  lemma SameNetwork(s: ResourceStats, t: ResourceStats)
    requires SameElsewhere(s, t)
    ensures AssessNetwork(t) == AssessNetwork(s) && (Quiescent(t) <==> Quiescent(s))
  {
  }

  lemma PeakTouchesMemoryOnly(s: ResourceStats)
    ensures var (rs, rt) := (AssessAll(s), AssessAll(WithPeak(s))); rt == rs.(memory := rt.memory)
    ensures Quiescent(s) <==> Quiescent(WithPeak(s))
  {
    SameCpu(s, WithPeak(s));
    SameDisks(s, WithPeak(s));
    SameNetwork(s, WithPeak(s));
  }

  lemma SameButMemory(s: ResourceStats, t: ResourceStats, rs: Resources, rt: Resources)
    requires StatusOf(s, rs, UnderKinds(rs)) == HostOptimal && rt == rs.(memory := rt.memory)
      && rt.memory.status == Over
    requires Quiescent(s) <==> Quiescent(t)
    ensures StatusOf(t, rt, UnderKinds(rt)) == HostOver
  {
    forall k: ResourceKind ensures !Rootable(rt.Get(k).status) {
      assert Rootable(rs.Get(k).status) <==> k in UnderKinds(rs);
    }
  }

  ghost predicate NeverLowered(a: ResourceStats) {
    forall b | Heavier(a, b) :: NotLowered(a, b)
  }

  /** From a host, raising load never lowers the status exactly when its statistics are not those of an
      'optimal' host with a memory peak measured as 0 on at least 2 MB. */
  lemma SeverityIsMonotoneIff(a: ResourceStats)
    requires a.memTotalMb.Some? ==> a.memTotalMb.value >= 0
    ensures NeverLowered(a) <==> !(OptimalByStatistics(a) && NearPeakGap(a))
  {
    if OptimalByStatistics(a) && NearPeakGap(a) {
      GapBreaksMonotonicity(a);
    } else {
      forall b | Heavier(a, b) ensures NotLowered(a, b) {
        SeverityGrows(a, b);
      }
    }
  }
}
