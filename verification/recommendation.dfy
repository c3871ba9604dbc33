/**
 The right-sizing kernel: five resource assessments of one host and their roll-up.  Floats are
 reals, and a missing measurement is None.  Texts and labels are not modelled.
 */
module Recommendation {
  import opened Wrappers

  // ---------------------------------------------------------------- thresholds

  const IDLE_CPU_P95_PCT: real := 3.0
  const IDLE_NET_MBPS: real := 2.0
  const IDLE_DISK_IOPS: real := 5.0
  const PROCS_RUNNING_PER_CORE_SATURATION: real := 1.0
  const CPU_RUN_QUEUE_PER_CORE_SATURATION: real := 2.0
  const DISK_QUEUE_PER_DISK_SATURATION: real := 2.0
  const WIN_PAGES_INPUT_SATURATION: real := 20.0
  const PROCS_BLOCKED_DSTATE_SATURATION: real := 1.0
  const RS_CPU_UNDER_PCT: real := 70.0
  const RS_CPU_SIZING_TARGET_PCT: real := 70.0
  const RS_CPU_SAT_HEADROOM: real := 0.7
  const RS_CPU_PERCORE_HOLD_PCT: real := 85.0
  const RS_CPU_STEAL_BIAS_PCT: real := 5.0
  const RS_MEM_UNDER_PCT: real := 90.0
  const RS_MEM_SIZING_TARGET_PCT: real := 80.0
  const RS_MEM_SATURATION_FACTOR: real := 1.3
  const RS_DISK_RUNWAY_DAYS: real := 30.0
  const RS_DISK_STATIC_GUARD_PCT: real := 85.0
  const RS_DISKIO_AWAIT_MS: real := 20.0
  const RS_NET_RETRANS_PCT: real := 1.0
  const RS_NET_DROP_PCT: real := 0.5
  const RS_NET_MIN_TRAFFIC_KBPS: real := 10.0
  const RS_CONNTRACK_SATURATION_RATIO: real := 0.8
  const RS_CONFIDENCE_MIN_HOURS: real := 30.0
  const RS_DOWNSIZE_MIN_SUFFICIENCY: real := 0.7
  const RS_BURST_RATIO_MAX: real := 2.0

  // ---------------------------------------------------------------- data

  datatype OsFamily = Windows | OtherOs

  datatype ResourceStats = ResourceStats(
    cpuP95: Option<real>,
    cpuCores: Option<int>,
    memP95: Option<real>,
    diskUsed: Option<real>,
    netAvgKbytes: Option<real>,
    os: OsFamily,
    sampleSufficiency: Option<real>,
    diskQueueP95: Option<real>,
    cpuRunQueueP95: Option<real>,
    memPagesInputP95: Option<real>,
    cpuPercoreMax: Option<real>,
    procsBlockedP95: Option<real>,
    procsRunningP95: Option<real>,
    memSwapPaging: bool,
    oomOccurred: bool,
    memTotalMb: Option<int>,
    memNearPeak: Option<real>,
    diskAwaitP95: Option<real>,
    diskIopsBaseline: Option<real>,
    diskRunway: Option<real>,
    inodeRunway: Option<real>,
    inodeUsed: Option<real>,
    diskTargetGb: Option<real>,
    netRetrans: Option<real>,
    netDrop: Option<real>,
    conntrackRatio: Option<real>,
    historyHours: Option<real>,
    cpuBurstRatio: Option<real>,
    utilTrendRising: Option<bool>,
    cpuStealP95: Option<real>)

  datatype ResourceKind = Cpu | Memory | DiskCapacity | DiskIo | Network

  datatype ResourceStatus =
    Under | Optimal | Over | Insufficient | Filling | CapacityOk | IoBound | IoOk | Congested | QualityOk | Unmeasured

  datatype TriggerKind =
    CpuUtil | CpuSaturation | MemUtil | MemSaturation | MemOom | DiskCapacityLow | DiskIoSlow
    | NetRetrans | NetDrop | NetConntrack

  datatype ConfidenceNote = ConfidenceNote(lowPrecision: bool, coverageGap: bool, biased: bool, nonstationary: bool) {
    predicate High() { !(lowPrecision || coverageGap || biased) }
  }

  datatype ResourceAssessment = ResourceAssessment(
    kind: ResourceKind,
    status: ResourceStatus,
    triggers: seq<TriggerKind>,
    sizingTarget: Option<int>,
    sizingFloor: Option<int>,
    confidence: ConfidenceNote)

  // ---------------------------------------------------------------- arithmetic

  /** math.ceil */
  function Ceil(x: real): (n: int)
    ensures n as real - 1.0 < x <= n as real
  {
    -((-x).Floor)
  }

  lemma CeilIsLeast(x: real, n: int)
    ensures Ceil(x) <= n <==> x <= n as real
  {
  }

  function Max(a: int, b: int): int {
    if a < b then b else a
  }

  predicate AtLeast(x: Option<real>, line: real) {
    x.Some? && x.value >= line
  }

  predicate Above(x: Option<real>, line: real) {
    x.Some? && x.value > line
  }

  predicate Below(x: Option<real>, line: real) {
    x.Some? && x.value < line
  }

  // ---------------------------------------------------------------- saturation

  function DiskIoSaturated(s: ResourceStats): Option<bool> {
    if s.diskAwaitP95.Some? then Some(s.diskAwaitP95.value > RS_DISKIO_AWAIT_MS)
    else if s.os.Windows? && s.diskQueueP95.Some? then Some(s.diskQueueP95.value >= DISK_QUEUE_PER_DISK_SATURATION)
    else None
  }

  function RunQueueValue(s: ResourceStats): Option<real> {
    if s.os.Windows? then s.cpuRunQueueP95 else s.procsRunningP95
  }

  function CpuSatLine(os: OsFamily): real {
    if os.Windows? then CPU_RUN_QUEUE_PER_CORE_SATURATION else PROCS_RUNNING_PER_CORE_SATURATION
  }

  function CpuSaturated(s: ResourceStats): Option<bool> {
    if s.cpuCores.None? || s.cpuCores.value <= 0 || RunQueueValue(s).None? then None
    else if RunQueueValue(s).value / s.cpuCores.value as real < CpuSatLine(s.os) then Some(false)
    else Some(s.cpuP95.None? || s.cpuP95.value >= RS_CPU_UNDER_PCT)
  }

  function MemSaturated(s: ResourceStats): Option<bool> {
    if s.memP95.None? then None
    else if s.memP95.value < RS_MEM_UNDER_PCT then Some(false)
    else if s.os.Windows? then
      if s.memPagesInputP95.None? then None else Some(s.memPagesInputP95.value >= WIN_PAGES_INPUT_SATURATION)
    else Some(s.memSwapPaging)
  }

  predicate MemPagingActive(s: ResourceStats) {
    MemSaturated(s) == Some(true)
  }

  function CpuSaturationIndex(runQueue: Option<real>, cores: Option<int>, os: OsFamily): Option<real> {
    if runQueue.None? || cores.None? || cores.value == 0 then None
    else Some(runQueue.value / cores.value as real / CpuSatLine(os))
  }

  function DiskIoSaturationIndex(awaitMs: Option<real>, diskQueue: Option<real>, os: OsFamily): Option<real> {
    if awaitMs.Some? then Some(awaitMs.value / RS_DISKIO_AWAIT_MS)
    else if os.Windows? && diskQueue.Some? then Some(diskQueue.value / DISK_QUEUE_PER_DISK_SATURATION)
    else None
  }

  predicate NetSignalActive(retrans: Option<real>, drop: Option<real>, conntrack: Option<real>, kbytes: Option<real>) {
    var lowTraffic := Below(kbytes, RS_NET_MIN_TRAFFIC_KBPS);
    if !lowTraffic && Above(retrans, RS_NET_RETRANS_PCT) then true
    else if !lowTraffic && Above(drop, RS_NET_DROP_PCT) then true
    else AtLeast(conntrack, RS_CONNTRACK_SATURATION_RATIO)
  }

  // ---------------------------------------------------------------- confidence

  predicate PrecisionLow(s: ResourceStats) {
    Below(s.historyHours, RS_CONFIDENCE_MIN_HOURS) || Above(s.cpuBurstRatio, RS_BURST_RATIO_MAX)
  }

  function BaseConfidence(s: ResourceStats, biased: bool, utilBearing: bool): ConfidenceNote {
    ConfidenceNote(PrecisionLow(s), false, biased, utilBearing && s.utilTrendRising == Some(true))
  }

  // ---------------------------------------------------------------- CPU

  function UtilCores(util: real, cores: int): int {
    if util > 0.0 then Ceil(util * cores as real / RS_CPU_SIZING_TARGET_PCT) else 1
  }

  function SatCores(runQueue: Option<real>, os: OsFamily, saturated: bool): int {
    if saturated && runQueue.Some? && runQueue.value > 0.0
    then Ceil(runQueue.value / (CpuSatLine(os) * RS_CPU_SAT_HEADROOM)) else 0
  }

  function CpuTargetCores(util: real, cores: int, runQueue: Option<real>, os: OsFamily, saturated: bool): int {
    Max(1, Max(UtilCores(util, cores), SatCores(runQueue, os, saturated)))
  }

  predicate PercoreBusy(s: ResourceStats) {
    AtLeast(s.cpuPercoreMax, RS_CPU_PERCORE_HOLD_PCT)
  }

  function CpuConfidence(s: ResourceStats): ConfidenceNote {
    var c := BaseConfidence(s, AtLeast(s.cpuStealP95, RS_CPU_STEAL_BIAS_PCT), true);
    if CpuSaturated(s).None? || s.cpuP95.None? then c.(coverageGap := true) else c
  }

  function CpuTarget(s: ResourceStats): int
    requires s.cpuCores.Some?
  {
    CpuTargetCores(if s.cpuP95.Some? then s.cpuP95.value else 0.0, s.cpuCores.value, RunQueueValue(s), s.os,
                   CpuSaturated(s) == Some(true))
  }

  function CpuTriggers(s: ResourceStats): seq<TriggerKind> {
    (if AtLeast(s.cpuP95, RS_CPU_UNDER_PCT) then [CpuUtil] else [])
    + (if CpuSaturated(s) == Some(true) then [CpuSaturation] else [])
  }

  function AssessCpu(s: ResourceStats): ResourceAssessment {
    var conf := CpuConfidence(s);
    if (s.cpuP95.None? && CpuSaturated(s) != Some(true)) || s.cpuCores.None? || s.cpuCores.value <= 0 then
      ResourceAssessment(Cpu, Unmeasured, [], None, None, conf)
    else
      var cores, target, triggers := s.cpuCores.value, CpuTarget(s), CpuTriggers(s);
      if triggers != [] || target > cores then
        ResourceAssessment(Cpu, Under, triggers, if target > cores then Some(target) else None,
                           if target > cores then None else Some(cores + 1), conf)
      else if target < cores && !PercoreBusy(s) then
        ResourceAssessment(Cpu, Over, [], Some(target), None, conf)
      else ResourceAssessment(Cpu, Optimal, [], Some(cores), None, conf)
  }

  // ---------------------------------------------------------------- memory

  function MemTargetMb(nearPeak: real, totalMb: Option<int>): Option<int> {
    if totalMb.None? || nearPeak <= 0.0 then None
    else Some(Ceil(totalMb.value as real * nearPeak / RS_MEM_SIZING_TARGET_PCT))
  }

  function MemHeadroomMb(totalMb: int): int {
    Ceil(totalMb as real * RS_MEM_SATURATION_FACTOR)
  }

  /** The larger of the utilization target and, under saturation, the current size plus 30 %. */
  function MemCandidate(utilTarget: Option<int>, s: ResourceStats): Option<int> {
    var headroom := if s.memTotalMb.Some? && (MemPagingActive(s) || s.oomOccurred)
                    then Some(MemHeadroomMb(s.memTotalMb.value)) else None;
    if utilTarget.None? then headroom
    else if headroom.None? then utilTarget
    else Some(Max(utilTarget.value, headroom.value))
  }

  function MemUnderTarget(utilTarget: Option<int>, s: ResourceStats): Option<int> {
    var up := MemCandidate(utilTarget, s);
    if up.None? then None
    else if s.memTotalMb.None? || up.value > s.memTotalMb.value then up else None
  }

  function MemTriggers(s: ResourceStats): seq<TriggerKind> {
    (if AtLeast(s.memP95, RS_MEM_UNDER_PCT) then [MemUtil] else [])
    + (if MemPagingActive(s) then [MemSaturation] else [])
    + (if s.oomOccurred then [MemOom] else [])
  }

  /** The sizing statistic: near-peak, or the p95 when near-peak was not measured. */
  function NearPeak(s: ResourceStats): Option<real> {
    if s.memNearPeak.Some? then s.memNearPeak else s.memP95
  }

  function AssessMemory(s: ResourceStats): ResourceAssessment {
    var conf := BaseConfidence(s, false, true);
    var floor := if s.memTotalMb.Some? then Some(MemHeadroomMb(s.memTotalMb.value)) else None;
    if s.memP95.None? then
      if s.oomOccurred then ResourceAssessment(Memory, Under, [MemOom], None, floor, conf)
      else ResourceAssessment(Memory, Unmeasured, [], None, None, conf.(coverageGap := true))
    else
      var target := MemTargetMb(NearPeak(s).value, s.memTotalMb);
      if MemTriggers(s) != [] then
        var up := MemUnderTarget(target, s);
        ResourceAssessment(Memory, Under, MemTriggers(s), up, if up.None? then floor else None, conf)
      else if s.memTotalMb.Some? && s.memTotalMb.value != 0 && target.Some? && target.value != 0
        && target.value < s.memTotalMb.value then
        ResourceAssessment(Memory, Over, [], target, None, conf)
      else ResourceAssessment(Memory, Optimal, [], s.memTotalMb, None, conf)
  }

  // ---------------------------------------------------------------- disk and network

  function MinRunway(a: Option<real>, b: Option<real>): Option<real> {
    if a.None? then b else if b.None? then a else if a.value <= b.value then a else b
  }

  function AssessDiskCapacity(s: ResourceStats): ResourceAssessment {
    var conf := BaseConfidence(s, false, false);
    var runway := MinRunway(s.diskRunway, s.inodeRunway);
    var target := if AtLeast(s.diskTargetGb, 1.0) then Some(Ceil(s.diskTargetGb.value)) else None;
    if Below(runway, RS_DISK_RUNWAY_DAYS) then
      var byteTarget := if runway == s.diskRunway then target else None;
      ResourceAssessment(DiskCapacity, Filling, [DiskCapacityLow], byteTarget, None, conf)
    else if s.diskRunway.None? && AtLeast(s.diskUsed, RS_DISK_STATIC_GUARD_PCT) then
      ResourceAssessment(DiskCapacity, Filling, [DiskCapacityLow], target, None, conf)
    else if s.inodeRunway.None? && AtLeast(s.inodeUsed, RS_DISK_STATIC_GUARD_PCT) then
      ResourceAssessment(DiskCapacity, Filling, [DiskCapacityLow], None, None, conf)
    else if runway.None? && s.diskUsed.None? && s.inodeUsed.None? then
      ResourceAssessment(DiskCapacity, Unmeasured, [], None, None, conf.(coverageGap := true))
    else ResourceAssessment(DiskCapacity, CapacityOk, [], None, None, conf)
  }

  function AssessDiskIo(s: ResourceStats): ResourceAssessment {
    var conf := BaseConfidence(s, true, false);
    var sat := DiskIoSaturated(s);
    if sat.None? then
      if s.diskIopsBaseline.Some? then ResourceAssessment(DiskIo, IoOk, [], None, None, conf)
      else ResourceAssessment(DiskIo, Unmeasured, [], None, None, conf.(coverageGap := true))
    else if sat.value then ResourceAssessment(DiskIo, IoBound, [DiskIoSlow], None, None, conf)
    else ResourceAssessment(DiskIo, IoOk, [], None, None, conf)
  }

  function NetTriggers(s: ResourceStats): seq<TriggerKind> {
    var lowTraffic := Below(s.netAvgKbytes, RS_NET_MIN_TRAFFIC_KBPS);
    (if !lowTraffic && Above(s.netRetrans, RS_NET_RETRANS_PCT) then [NetRetrans] else [])
    + (if !lowTraffic && Above(s.netDrop, RS_NET_DROP_PCT) then [NetDrop] else [])
    + (if AtLeast(s.conntrackRatio, RS_CONNTRACK_SATURATION_RATIO) then [NetConntrack] else [])
  }

  function AssessNetwork(s: ResourceStats): ResourceAssessment {
    var conf := BaseConfidence(s, false, false);
    if NetTriggers(s) != [] then ResourceAssessment(Network, Congested, NetTriggers(s), None, None, conf)
    else if s.netRetrans.None? && s.netDrop.None? && s.conntrackRatio.None? then
      ResourceAssessment(Network, Unmeasured, [], None, None, conf.(coverageGap := true))
    else ResourceAssessment(Network, QualityOk, [], None, None, conf)
  }

  // ---------------------------------------------------------------- ratios

  lemma MulKeepsOrder(a: real, b: real, n: real)
    requires n > 0.0
    ensures a <= b <==> a * n <= b * n
    ensures a < b <==> a * n < b * n
  {
  }

  lemma Ratio(x: real, n: real, limit: real)
    requires n > 0.0
    ensures x / n <= limit <==> x <= limit * n
    ensures x / n < limit <==> x < limit * n
  {
    assert x == x / n * n;
    MulKeepsOrder(x / n, limit, n);
    MulKeepsOrder(limit, x / n, n);
  }

  // ---------------------------------------------------------------- CPU: what the verdict means

  lemma UtilCoresIsTight(util: real, cores: int, n: int)
    requires cores > 0 && n >= 1
    ensures UtilCores(util, cores) <= n <==> util * cores as real / n as real <= RS_CPU_SIZING_TARGET_PCT
  {
    var load := util * cores as real;
    Ratio(load, n as real, RS_CPU_SIZING_TARGET_PCT);
    Ratio(load, RS_CPU_SIZING_TARGET_PCT, n as real);
    if util > 0.0 {
      CeilIsLeast(load / RS_CPU_SIZING_TARGET_PCT, n);
    } else {
      MulKeepsOrder(util, 0.0, cores as real);
    }
  }

  /** The target is the least core count at which the same load stays at or below 70 % and, under
      saturation, the same run queue per core at or below 0.7 of the saturation line. */
  lemma CpuTargetIsTight(util: real, cores: int, runQueue: Option<real>, os: OsFamily, saturated: bool, n: int)
    requires cores > 0 && n >= 1
    ensures CpuTargetCores(util, cores, runQueue, os, saturated) <= n <==>
      && util * cores as real / n as real <= RS_CPU_SIZING_TARGET_PCT
      && (saturated && runQueue.Some? && runQueue.value > 0.0 ==>
            runQueue.value / n as real <= RS_CPU_SAT_HEADROOM * CpuSatLine(os))
  {
    UtilCoresIsTight(util, cores, n);
    if saturated && runQueue.Some? && runQueue.value > 0.0 {
      var room := CpuSatLine(os) * RS_CPU_SAT_HEADROOM;
      Ratio(runQueue.value, n as real, room);
      Ratio(runQueue.value, room, n as real);
      CeilIsLeast(runQueue.value / room, n);
    }
  }

  /** With utilization and a positive core count known, CPU is under exactly from 70 % on. */
  lemma CpuUnderIff(s: ResourceStats)
    requires s.cpuP95.Some? && s.cpuCores.Some? && s.cpuCores.value > 0
    ensures AssessCpu(s).status == Under <==> s.cpuP95.value >= RS_CPU_UNDER_PCT
  {
    if s.cpuP95.value < RS_CPU_UNDER_PCT {
      BelowLineTarget(s);
    }
  }

  /** Below the line the run queue plays no part and the target is the utilization target. */
  lemma BelowLineTarget(s: ResourceStats)
    requires s.cpuP95.Some? && s.cpuCores.Some? && s.cpuCores.value > 0 && s.cpuP95.value < RS_CPU_UNDER_PCT
    ensures CpuTriggers(s) == []
    ensures CpuTarget(s) == Max(1, UtilCores(s.cpuP95.value, s.cpuCores.value)) <= s.cpuCores.value
  {
    var u, c := s.cpuP95.value, s.cpuCores.value;
    Ratio(u * c as real, c as real, RS_CPU_SIZING_TARGET_PCT);
    MulKeepsOrder(u, RS_CPU_SIZING_TARGET_PCT, c as real);
    assert UtilCores(u, c) <= c by { UtilCoresIsTight(u, c, c); }
    hide UtilCores;
    assert CpuSaturated(s) != Some(true);
    assert CpuTarget(s) == CpuTargetCores(u, c, RunQueueValue(s), s.os, false);
  }

  /** The load of `c` cores at `u` percent, spread over `n` cores. */
  function Spread(u: real, c: int, n: int): real
    requires n > 0
  {
    u * c as real / n as real
  }

  /** The load stays strictly below 70 % of `n` cores. */
  predicate FitsBelow(u: real, c: int, n: int) {
    u * c as real < RS_CPU_SIZING_TARGET_PCT * n as real
  }

  lemma SpreadLoad(u: real, c: int, n: int)
    requires c > 0 && n > 0
    ensures Spread(u, c, n) < RS_CPU_UNDER_PCT <==> FitsBelow(u, c, n)
    ensures UtilCores(Spread(u, c, n), n) == UtilCores(u, c)
  {
    var load := u * c as real;
    Ratio(load, n as real, RS_CPU_SIZING_TARGET_PCT);
    Ratio(load, n as real, 0.0);
    MulKeepsOrder(u, 0.0, c as real);
    SameQuotient(u, c, n);
  }

  lemma SameQuotient(u: real, c: int, n: int)
    requires n > 0
    ensures Spread(u, c, n) * n as real / RS_CPU_SIZING_TARGET_PCT == u * c as real / RS_CPU_SIZING_TARGET_PCT
  {
    assert Spread(u, c, n) * n as real == u * c as real;
  }

  /** The same host with `n` cores: the same load and the same run queue. */
  function Resized(s: ResourceStats, n: int): ResourceStats
    requires s.cpuP95.Some? && s.cpuCores.Some? && n > 0
  {
    s.(cpuCores := Some(n), cpuP95 := Some(Spread(s.cpuP95.value, s.cpuCores.value, n)))
  }

  predicate ExactMultiple(load: real) {
    load == RS_CPU_SIZING_TARGET_PCT * (load / RS_CPU_SIZING_TARGET_PCT).Floor as real
  }

  /** The load is positive and fills some cores to exactly 70 %. */
  predicate FillsExactly(u: real, c: int) {
    u > 0.0 && ExactMultiple(u * c as real)
  }

  /** The run queue is at its line per core and asks for more cores than hold the load at 70 %. */
  predicate QueueAsksMore(s: ResourceStats)
    requires s.cpuP95.Some? && s.cpuCores.Some? && s.cpuCores.value > 0
  {
    && s.cpuP95.value >= RS_CPU_UNDER_PCT
    && AtLeast(RunQueueValue(s), CpuSatLine(s.os) * s.cpuCores.value as real)
    && RunQueueValue(s).value >
      CpuSatLine(s.os) * RS_CPU_SAT_HEADROOM * UtilCores(s.cpuP95.value, s.cpuCores.value) as real
  }

  /** Reassessing a host resized to its target is stable exactly when, should the run queue have set the
      size, a busy core holds it there, and else the load is no positive multiple of 70. */
  lemma ResizedIsOptimalIff(s: ResourceStats)
    requires s.cpuP95.Some? && s.cpuCores.Some? && s.cpuCores.value > 0
    ensures AssessCpu(Resized(s, CpuTarget(s))).status == Optimal <==>
      if QueueAsksMore(s) then PercoreBusy(s)
      else !FillsExactly(s.cpuP95.value, s.cpuCores.value)
  {
    hide AssessCpu, CpuTarget, UtilCores, QueueAsksMore, FitsBelow, FillsExactly, Resized;
    var least := Max(1, UtilCores(s.cpuP95.value, s.cpuCores.value));
    UtilCoresWithinTarget(s);
    ResizedTo(s, CpuTarget(s), least);
    QueueSetsTarget(s);
    LeastFitsIff(s.cpuP95.value, s.cpuCores.value, least);
    if CpuTarget(s) > least {
      MoreCoresFit(s.cpuP95.value, s.cpuCores.value, least, CpuTarget(s));
    }
  }

  /** The target exceeds what the load needs exactly when the run queue asks for more. */
  lemma QueueSetsTarget(s: ResourceStats)
    requires s.cpuP95.Some? && s.cpuCores.Some? && s.cpuCores.value > 0
    ensures CpuTarget(s) > Max(1, UtilCores(s.cpuP95.value, s.cpuCores.value)) <==> QueueAsksMore(s)
  {
    var u, c := s.cpuP95.value, s.cpuCores.value;
    SaturatedIff(s);
    if CpuSaturated(s) == Some(true) {
      LoadNeedsOne(u, c);
      QueueCoresExceedIff(RunQueueValue(s), s.os, UtilCores(u, c));
    }
    hide CpuSatLine, CpuSaturated, RunQueueValue, UtilCores;
    assert CpuTarget(s) == CpuTargetCores(u, c, RunQueueValue(s), s.os, CpuSaturated(s) == Some(true));
  }

  lemma SaturatedIff(s: ResourceStats)
    requires s.cpuP95.Some? && s.cpuCores.Some? && s.cpuCores.value > 0
    ensures CpuSaturated(s) == Some(true) <==>
      s.cpuP95.value >= RS_CPU_UNDER_PCT && AtLeast(RunQueueValue(s), CpuSatLine(s.os) * s.cpuCores.value as real)
  {
    hide CpuSatLine, RunQueueValue;
    if RunQueueValue(s).Some? {
      Ratio(RunQueueValue(s).value, s.cpuCores.value as real, CpuSatLine(s.os));
    }
  }

  lemma QueueCoresExceedIff(queue: Option<real>, os: OsFamily, n: int)
    requires queue.Some? && n >= 1
    ensures SatCores(queue, os, true) > n <==> queue.value > CpuSatLine(os) * RS_CPU_SAT_HEADROOM * n as real
  {
    var room := CpuSatLine(os) * RS_CPU_SAT_HEADROOM;
    MulKeepsOrder(0.0, room, n as real);
    if queue.value > 0.0 {
      Ratio(queue.value, room, n as real);
      CeilIsLeast(queue.value / room, n);
    }
  }

  lemma LoadNeedsOne(u: real, c: int)
    requires u > 0.0 && c > 0
    ensures UtilCores(u, c) >= 1
  {
    MulKeepsOrder(0.0, u, c as real);
    Ratio(u * c as real, RS_CPU_SIZING_TARGET_PCT, 0.0);
  }

  /** The load lies strictly below 70 % of the least size that holds it unless it fills it exactly. */
  lemma LeastFitsIff(u: real, c: int, least: int)
    requires c > 0 && least == Max(1, UtilCores(u, c))
    ensures FitsBelow(u, c, least) <==> !FillsExactly(u, c)
  {
    var load := u * c as real;
    if u <= 0.0 {
      MulKeepsOrder(u, 0.0, c as real);
    } else {
      LoadNeedsOne(u, c);
      UtilCoresIsTight(u, c, least);
      Ratio(load, least as real, RS_CPU_SIZING_TARGET_PCT);
      assert ExactMultiple(load) <==> load == RS_CPU_SIZING_TARGET_PCT * least as real by {
        WholeQuotient(load, least);
      }
    }
  }

  lemma WholeQuotient(load: real, least: int)
    requires least == Ceil(load / RS_CPU_SIZING_TARGET_PCT)
    ensures ExactMultiple(load) <==> load == RS_CPU_SIZING_TARGET_PCT * least as real
  {
    var q := load / RS_CPU_SIZING_TARGET_PCT;
    assert load == RS_CPU_SIZING_TARGET_PCT * q;
    if load == RS_CPU_SIZING_TARGET_PCT * least as real {
      assert q == least as real;
      assert (least as real).Floor == least;
    } else if ExactMultiple(load) {
      assert q == q.Floor as real;
      CeilIsLeast(q, q.Floor);
    }
  }

  lemma MoreCoresFit(u: real, c: int, least: int, n: int)
    requires c > 0 && least == Max(1, UtilCores(u, c)) && least < n
    ensures FitsBelow(u, c, n)
  {
    UtilCoresIsTight(u, c, least);
    Ratio(u * c as real, least as real, RS_CPU_SIZING_TARGET_PCT);
  }

  lemma ResizedTo(s: ResourceStats, n: int, least: int)
    requires s.cpuP95.Some? && s.cpuCores.Some? && s.cpuCores.value > 0
    requires least == Max(1, UtilCores(s.cpuP95.value, s.cpuCores.value)) <= n
    ensures AssessCpu(Resized(s, n)).status == Optimal <==>
      FitsBelow(s.cpuP95.value, s.cpuCores.value, n) && (n == least || PercoreBusy(s))
  {
    SpreadLoad(s.cpuP95.value, s.cpuCores.value, n);
    OptimalIff(Resized(s, n));
  }

  lemma UtilCoresWithinTarget(s: ResourceStats)
    requires s.cpuP95.Some? && s.cpuCores.Some? && s.cpuCores.value > 0
    ensures 1 <= Max(1, UtilCores(s.cpuP95.value, s.cpuCores.value)) <= CpuTarget(s)
  {
  }

  /** CPU is optimal exactly below 70 % with every core needed, or held by a busy one. */
  lemma OptimalIff(s: ResourceStats)
    requires s.cpuP95.Some? && s.cpuCores.Some? && s.cpuCores.value > 0
    ensures AssessCpu(s).status == Optimal <==>
      s.cpuP95.value < RS_CPU_UNDER_PCT
      && (Max(1, UtilCores(s.cpuP95.value, s.cpuCores.value)) >= s.cpuCores.value || PercoreBusy(s))
  {
    CpuUnderIff(s);
    if s.cpuP95.value < RS_CPU_UNDER_PCT {
      BelowLineTarget(s);
    }
  }

  /** In particular: driven by utilization, with a positive load that is no exact multiple of 70. */
  lemma ResizedByUtilizationIsOptimal(s: ResourceStats)
    requires s.cpuP95.Some? && s.cpuCores.Some? && s.cpuCores.value > 0 && s.cpuP95.value > 0.0
    requires CpuTarget(s) == Max(1, UtilCores(s.cpuP95.value, s.cpuCores.value))
    requires !FillsExactly(s.cpuP95.value, s.cpuCores.value)
    ensures AssessCpu(Resized(s, CpuTarget(s))).status == Optimal
  {
    ResizedIsOptimalIff(s);
    QueueSetsTarget(s);
  }

  /** The run queue gate and the live index agree, except that a measured low utilization overrides it. */
  lemma SaturationMatchesIndex(s: ResourceStats)
    requires s.cpuCores.Some? && s.cpuCores.value > 0
    ensures CpuSaturated(s) == Some(true) <==>
      AtLeast(CpuSaturationIndex(RunQueueValue(s), s.cpuCores, s.os), 1.0)
      && (s.cpuP95.None? || s.cpuP95.value >= RS_CPU_UNDER_PCT)
  {
    if RunQueueValue(s).Some? {
      Ratio(RunQueueValue(s).value / s.cpuCores.value as real, CpuSatLine(s.os), 1.0);
    }
  }

  /** The disk verdict and the live index agree except at an await of exactly 20 ms, where the index
      says saturated and the verdict does not. */
  lemma DiskSaturationMatchesIndexIff(s: ResourceStats)
    ensures var index := DiskIoSaturationIndex(s.diskAwaitP95, s.diskQueueP95, s.os);
      (DiskIoSaturated(s) == Some(true) <==> AtLeast(index, 1.0)) <==> s.diskAwaitP95 != Some(RS_DISKIO_AWAIT_MS)
  {
  }

  // ---------------------------------------------------------------- memory: what the verdict means

  /** With utilization known, memory is under exactly from 90 % on or after an OOM kill; without it,
      exactly after an OOM kill. */
  lemma MemoryUnderIff(s: ResourceStats)
    ensures AssessMemory(s).status == Under <==> AtLeast(s.memP95, RS_MEM_UNDER_PCT) || s.oomOccurred
  {
  }

  /** The memory target is the least size at which the observed peak stays at or below 80 %. */
  lemma MemTargetIsTight(nearPeak: real, totalMb: int, n: int)
    requires nearPeak > 0.0 && n >= 1
    ensures MemTargetMb(nearPeak, Some(totalMb)).Some?
    ensures MemTargetMb(nearPeak, Some(totalMb)).value <= n <==>
      totalMb as real * nearPeak / n as real <= RS_MEM_SIZING_TARGET_PCT
  {
    var used := totalMb as real * nearPeak;
    Ratio(used, n as real, RS_MEM_SIZING_TARGET_PCT);
    Ratio(used, RS_MEM_SIZING_TARGET_PCT, n as real);
    CeilIsLeast(used / RS_MEM_SIZING_TARGET_PCT, n);
  }

  // ---------------------------------------------------------------- network: two readings of one signal

  /** The live signal and the 14-day verdict use the same gates. */
  lemma NetSignalIsCongestion(s: ResourceStats)
    ensures NetSignalActive(s.netRetrans, s.netDrop, s.conntrackRatio, s.netAvgKbytes) <==>
      AssessNetwork(s).status == Congested
  {
  }

  // ---------------------------------------------------------------- prescribing a downsize

  predicate DownsizePrescribable(a: ResourceAssessment, s: ResourceStats) {
    a.status == Over && a.confidence.High() && !a.confidence.nonstationary
    && s.sampleSufficiency.Some? && s.sampleSufficiency.value >= RS_DOWNSIZE_MIN_SUFFICIENCY
  }

  /** Enough history, no burst, no rising trend, window well covered: the raw statistics every
      downsize rests on. */
  predicate WellObserved(s: ResourceStats) {
    && !Below(s.historyHours, RS_CONFIDENCE_MIN_HOURS)
    && !Above(s.cpuBurstRatio, RS_BURST_RATIO_MAX)
    && s.utilTrendRising != Some(true)
    && AtLeast(s.sampleSufficiency, RS_DOWNSIZE_MIN_SUFFICIENCY)
  }

  /** One core less would still carry the load at no more than 70 %. */
  predicate FitsOneCoreLess(u: real, c: int) {
    c >= 2 && u * c as real / (c - 1) as real <= RS_CPU_SIZING_TARGET_PCT
  }

  /** CPU is over exactly when one core less would do and no core is at 85 % or more. */
  lemma CpuOverIff(s: ResourceStats)
    ensures AssessCpu(s).status == Over <==>
      s.cpuP95.Some? && s.cpuCores.Some? && FitsOneCoreLess(s.cpuP95.value, s.cpuCores.value) && !PercoreBusy(s)
  {
    if s.cpuP95.Some? && s.cpuCores.Some? && s.cpuCores.value > 0 {
      CpuUnderIff(s);
      if s.cpuP95.value < RS_CPU_UNDER_PCT {
        CpuOverBelowLine(s);
      } else {
        FullLoadNeedsAllCores(s.cpuP95.value, s.cpuCores.value);
      }
    }
  }

  lemma OneCoreLess(u: real, c: int)
    requires c > 0
    ensures Max(1, UtilCores(u, c)) < c <==> FitsOneCoreLess(u, c)
  {
    if c >= 2 { UtilCoresIsTight(u, c, c - 1); }
  }

  lemma CpuOverBelowLine(s: ResourceStats)
    requires s.cpuP95.Some? && s.cpuCores.Some? && s.cpuCores.value > 0 && s.cpuP95.value < RS_CPU_UNDER_PCT
    ensures AssessCpu(s).status == Over <==> FitsOneCoreLess(s.cpuP95.value, s.cpuCores.value) && !PercoreBusy(s)
  {
    BelowLineTarget(s);
    OneCoreLess(s.cpuP95.value, s.cpuCores.value);
  }

  /** A CPU downsize is prescribed exactly when, in addition, the run queue was measured, steal is below
      5 %, and the window is well observed. */
  lemma CpuDownsizeIff(s: ResourceStats)
    ensures DownsizePrescribable(AssessCpu(s), s) <==>
      && s.cpuP95.Some? && s.cpuCores.Some? && FitsOneCoreLess(s.cpuP95.value, s.cpuCores.value) && !PercoreBusy(s)
      && RunQueueValue(s).Some? && !AtLeast(s.cpuStealP95, RS_CPU_STEAL_BIAS_PCT)
      && WellObserved(s)
  {
    CpuOverIff(s);
    assert AssessCpu(s).confidence == CpuConfidence(s);
  }

  lemma FullLoadNeedsAllCores(u: real, c: int)
    requires u >= RS_CPU_SIZING_TARGET_PCT
    ensures !FitsOneCoreLess(u, c)
  {
    if c < 2 { return; }
    Ratio(u * c as real, (c - 1) as real, RS_CPU_SIZING_TARGET_PCT);
    MulKeepsOrder(RS_CPU_SIZING_TARGET_PCT, u, c as real);
  }

  predicate FitsOneMbLess(nearPeak: real, totalMb: int) {
    totalMb >= 2 && nearPeak > 0.0 && totalMb as real * nearPeak / (totalMb - 1) as real <= RS_MEM_SIZING_TARGET_PCT
  }

  /** Memory is over exactly when utilization is measured below 90 % without an OOM kill and a positive
      peak would fit a smaller size at 80 %. */
  lemma MemoryOverIff(s: ResourceStats)
    requires s.memTotalMb.Some? ==> s.memTotalMb.value >= 0
    ensures AssessMemory(s).status == Over <==>
      && s.memP95.Some? && s.memP95.value < RS_MEM_UNDER_PCT && !s.oomOccurred
      && s.memTotalMb.Some? && FitsOneMbLess(NearPeak(s).value, s.memTotalMb.value)
  {
    if s.memP95.Some? && s.memTotalMb.Some? && NearPeak(s).value > 0.0 {
      var total := s.memTotalMb.value;
      MulKeepsOrder(0.0, total as real, NearPeak(s).value);
      if total >= 2 {
        MemTargetIsTight(NearPeak(s).value, total, total - 1);
      }
    }
  }

  /** A memory downsize is prescribed exactly when, in addition, the window is well observed. */
  lemma MemoryDownsizeIff(s: ResourceStats)
    requires s.memTotalMb.Some? ==> s.memTotalMb.value >= 0
    ensures DownsizePrescribable(AssessMemory(s), s) <==>
      && s.memP95.Some? && s.memP95.value < RS_MEM_UNDER_PCT && !s.oomOccurred
      && s.memTotalMb.Some? && FitsOneMbLess(NearPeak(s).value, s.memTotalMb.value)
      && WellObserved(s)
  {
    MemoryOverIff(s);
    assert s.memP95.Some? ==> AssessMemory(s).confidence == BaseConfidence(s, false, true);
  }
}
