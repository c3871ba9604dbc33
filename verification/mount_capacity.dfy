/**
 Per-mount capacity sizing: the SQL arithmetic that derives runway and target from the fill trend,
 and the verdict built on it.  SQL numerics are reals, NULL is None.
 */
module MountCapacity {
  import opened Wrappers
  import opened Recommendation

  const GIB: int := 1024 * 1024 * 1024
  const TARGET_RUNWAY_DAYS: real := 365.0
  const TREND_MIN_SPAN_DAYS: real := 14.0
  const RATE_MIN_SPAN_DAYS: real := 1.25
  const NEAR_HORIZON_DAYS: real := 30.0
  const HEADROOM: real := 0.7

  /** One row of `mount_span`: free bytes (or inodes) at the two ends of the observed span. */
  datatype MountSpan = MountSpan(
    server: nat, mountpoint: string, freeFirst: Option<int>, freeLast: Option<int>, totalBytes: Option<int>,
    inodeFirst: Option<int>, inodeLast: Option<int>, inodeUsedPct: Option<real>, spanDays: real)

  datatype MountCapacityRaw = MountCapacityRaw(
    mountpoint: string, totalBytes: Option<int>, usedPct: Option<real>, byteRunway: Option<real>,
    inodeRunway: Option<real>, inodeUsedPct: Option<real>, targetBytes: Option<int>)

  datatype Action = Increase | Decrease | Keep
  datatype EstimateQuality = Exact | FloorOnly | Uncertain

  datatype MountSizing = MountSizing(currentGib: int, recommendedGib: int, action: Action, quality: EstimateQuality,
                                     inodeNote: bool)

  // ---------------------------------------------------------------- the SQL

  /** Free space shrank over the span. */
  predicate Shrinking(first: Option<int>, last: Option<int>) {
    first.Some? && last.Some? && first.value - last.value > 0
  }

  function FillRate(first: int, last: int, span: real): real
    requires span > 0.0
  {
    (first - last) as real / span
  }

  /** Whole days until nothing is left; NULL when it does not shrink or the span is too short. */
  function RunwayDays(first: Option<int>, last: Option<int>, span: real): Option<real> {
    if Shrinking(first, last) && span >= RATE_MIN_SPAN_DAYS && last.value >= 0 then
      RatePositive(first.value, last.value, span);
      var days := (last.value as real / FillRate(first.value, last.value, span)).Floor;
      Some(if days < 0 then 0.0 else days as real)
    else None
  }

  lemma RatePositive(first: int, last: int, span: real)
    requires first > last && span > 0.0
    ensures FillRate(first, last, span) > 0.0
  {
    Ratio(-(first - last) as real, span, 0.0);
  }

  predicate HasTotal(m: MountSpan) {
    m.totalBytes.Some? && m.totalBytes.value > 0
  }

  function UsedPct(m: MountSpan): Option<real> {
    if HasTotal(m) && m.freeLast.Some?
    then Some((1.0 - m.freeLast.value as real / m.totalBytes.value as real) * 100.0) else None
  }

  function UsedBytes(m: MountSpan): int
    requires m.totalBytes.Some? && m.freeLast.Some?
  {
    m.totalBytes.value - m.freeLast.value
  }

  function TargetBytes(m: MountSpan): Option<int> {
    if Shrinking(m.freeFirst, m.freeLast) && m.spanDays >= TREND_MIN_SPAN_DAYS && HasTotal(m) then
      Some(Ceil(UsedBytes(m) as real + TARGET_RUNWAY_DAYS * FillRate(m.freeFirst.value, m.freeLast.value, m.spanDays)))
    else if Shrinking(m.freeFirst, m.freeLast) && m.spanDays >= RATE_MIN_SPAN_DAYS && HasTotal(m) then
      Some(Ceil((UsedBytes(m) as real
        + NEAR_HORIZON_DAYS * FillRate(m.freeFirst.value, m.freeLast.value, m.spanDays)) / HEADROOM))
    else if HasTotal(m) && m.freeLast.Some? && m.freeLast.value >= 0
      && AtLeast(UsedPct(m), RS_DISK_STATIC_GUARD_PCT) then
      Some(Ceil(UsedBytes(m) as real / HEADROOM))
    else None
  }

  function CapacityRow(m: MountSpan): MountCapacityRaw {
    MountCapacityRaw(m.mountpoint, m.totalBytes, UsedPct(m), RunwayDays(m.freeFirst, m.freeLast, m.spanDays),
                     RunwayDays(m.inodeFirst, m.inodeLast, m.spanDays), m.inodeUsedPct, TargetBytes(m))
  }

  /** The mounts of one server, in row order. */
  function MountsOf(rows: seq<MountSpan>, server: nat): seq<MountCapacityRaw> {
    if rows == [] then [] else
      MountsOf(rows[..|rows| - 1], server)
      + if rows[|rows| - 1].server == server then [CapacityRow(rows[|rows| - 1])] else []
  }

  lemma NoMounts()
    ensures forall server :: MountsOf([], server) == []
  {
  }

  lemma OneMoreMount(rows: seq<MountSpan>, k: nat)
    requires k < |rows|
    ensures forall server | server != rows[k].server :: MountsOf(rows[..k + 1], server) == MountsOf(rows[..k], server)
    ensures MountsOf(rows[..k + 1], rows[k].server) == MountsOf(rows[..k], rows[k].server) + [CapacityRow(rows[k])]
  {
    hide CapacityRow;
    assert rows[..k + 1][..k] == rows[..k];
  }

  /** How many of the first `k` rows are the server's. */
  function RowsBefore(rows: seq<MountSpan>, server: nat, k: nat): nat
    requires k <= |rows|
  {
    if k == 0 then 0 else RowsBefore(rows, server, k - 1) + if rows[k - 1].server == server then 1 else 0
  }

  lemma {:induction false} GroupSize(rows: seq<MountSpan>, server: nat, k: nat)
    requires k <= |rows|
    ensures |MountsOf(rows[..k], server)| == RowsBefore(rows, server, k)
  {
    hide CapacityRow;
    if k > 0 {
      assert rows[..k][..k - 1] == rows[..k - 1];
      GroupSize(rows, server, k - 1);
    }
  }

  /** The group of a server has one entry for each of its rows, in the order of the rows. */
  lemma {:induction false} GroupedInOrder(rows: seq<MountSpan>, k: nat)
    requires k < |rows|
    ensures var (group, server) := (MountsOf(rows, rows[k].server), rows[k].server);
      && |group| == RowsBefore(rows, server, |rows|)
      && RowsBefore(rows, server, k) < |group| && group[RowsBefore(rows, server, k)] == CapacityRow(rows[k])
  {
    hide CapacityRow;
    var n := |rows| - 1;
    GroupSize(rows, rows[k].server, |rows|);
    assert rows[..|rows|] == rows;
    if k == n {
      GroupSize(rows, rows[k].server, k);
    } else {
      GroupedInOrder(rows[..n], k);
      RowsBeforePrefix(rows, rows[k].server, n, k);
    }
  }

  lemma {:induction false} RowsBeforePrefix(rows: seq<MountSpan>, server: nat, n: nat, k: nat)
    requires k <= n <= |rows|
    ensures RowsBefore(rows[..n], server, k) == RowsBefore(rows, server, k)
  {
    if k > 0 {
      RowsBeforePrefix(rows, server, n, k - 1);
    }
  }

  /** The setdefault/append loop groups the rows by server and keeps their order. */
  method ReportMountCapacityBatch(rows: seq<MountSpan>) returns (out: map<nat, seq<MountCapacityRaw>>)
    ensures forall server :: (if server in out then out[server] else []) == MountsOf(rows, server)
    ensures forall server :: server in out <==> MountsOf(rows, server) != []
  {
    hide MountsOf, CapacityRow;
    out := map[];
    NoMounts();
    for k := 0 to |rows|
      invariant forall server :: (if server in out then out[server] else []) == MountsOf(rows[..k], server)
      invariant forall server :: server in out <==> MountsOf(rows[..k], server) != []
    {
      var row := rows[k];
      OneMoreMount(rows, k);
      if row.server !in out {
        out := out[row.server := []];
      }
      out := out[row.server := out[row.server] + [CapacityRow(row)]];
    }
    assert rows[..|rows|] == rows;
  }

  // ---------------------------------------------------------------- the verdict

  predicate Exhausting(runway: Option<real>, usedPct: Option<real>) {
    Below(runway, RS_DISK_RUNWAY_DAYS) || (runway.None? && AtLeast(usedPct, RS_DISK_STATIC_GUARD_PCT))
  }

  function InGib(bytes: int): int {
    Ceil(bytes as real / GIB as real)
  }

  function AssessMountCapacity(m: MountCapacityRaw): Option<MountSizing> {
    if m.totalBytes.None? || m.totalBytes.value == 0 then None
    else
      var current := InGib(m.totalBytes.value);
      if Exhausting(m.byteRunway, m.usedPct) then
        if m.targetBytes.Some? then
          var rec := Max(current, InGib(m.targetBytes.value));
          Some(MountSizing(current, rec, if rec > current then Increase else Keep, Exact, false))
        else Some(MountSizing(current, Max(current, Ceil(current as real / HEADROOM)), Increase, FloorOnly, false))
      else Some(MountSizing(current, current, Keep, Exact, Exhausting(m.inodeRunway, m.inodeUsedPct)))
  }

  predicate ByteFilling(m: MountSpan) {
    Exhausting(RunwayDays(m.freeFirst, m.freeLast, m.spanDays), UsedPct(m))
  }

  /** The SQL leaves a filling mount without a target exactly when its free space is negative and no
      trend is usable; so the floor branch is unreachable for free space of at least 0. */
  lemma NoTargetIff(m: MountSpan)
    requires HasTotal(m)
    ensures ByteFilling(m) && TargetBytes(m).None? <==>
      m.freeLast.Some? && m.freeLast.value < 0
        && !(Shrinking(m.freeFirst, m.freeLast) && m.spanDays >= RATE_MIN_SPAN_DAYS)
  {
    if m.freeLast.Some? && m.freeLast.value < 0 {
      Ratio(m.freeLast.value as real, m.totalBytes.value as real, 0.0);
    }
  }

  /** The recommended size in GiB holds the mount and its target, and no smaller size does. */
  lemma RecommendedIsLeast(m: MountSpan, n: int)
    requires HasTotal(m) && ByteFilling(m) && TargetBytes(m).Some?
    ensures AssessMountCapacity(CapacityRow(m)).Some?
    ensures AssessMountCapacity(CapacityRow(m)).value.recommendedGib <= n <==>
      m.totalBytes.value <= n * 1_073_741_824 && TargetBytes(m).value <= n * 1_073_741_824
  {
    GibHolds(m.totalBytes.value, n);
    GibHolds(TargetBytes(m).value, n);
  }

  lemma GibHolds(bytes: int, n: int)
    ensures InGib(bytes) <= n <==> bytes <= n * GIB
  {
    Ratio(bytes as real, GIB as real, n as real);
    CeilIsLeast(bytes as real / GIB as real, n);
    assert n as real * GIB as real == (n * GIB) as real;
  }

  /** Bytes or inodes run out: within 30 days at their rate, or without a rate at 85 % and more. */
  predicate RunsOut(runway: Option<real>, usedPct: Option<real>) {
    if runway.Some? then runway.value < 30.0 else usedPct.Some? && usedPct.value >= 85.0
  }

  /** What each mount is given, in whole GiB: the least size that holds it and its target while its bytes
      run out; without a target, the least one that its present size fills to 70 %; its own size when they
      do not run out, noting whether the inodes do. */
  lemma MountSizingIs(m: MountCapacityRaw, n: int)
    requires m.totalBytes.Some? && m.totalBytes.value != 0
    ensures AssessMountCapacity(m).Some?
    ensures var (s, filling) := (AssessMountCapacity(m).value, RunsOut(m.byteRunway, m.usedPct));
      && (s.currentGib <= n <==> m.totalBytes.value <= n * 1_073_741_824)
      && (filling && m.targetBytes.Some? ==>
            && s.quality == Exact
            && (s.recommendedGib <= n <==>
                  m.totalBytes.value <= n * 1_073_741_824 && m.targetBytes.value <= n * 1_073_741_824))
      && (filling && m.targetBytes.None? ==>
            && s.quality == FloorOnly && s.action == Increase
            && (s.recommendedGib <= n <==> s.currentGib <= n && s.currentGib as real <= 0.7 * n as real))
      && (!filling ==> s.recommendedGib == s.currentGib && s.quality == Exact && s.action == Keep)
      && (s.inodeNote <==> !filling && RunsOut(m.inodeRunway, m.inodeUsedPct))
  {
    GibHolds(m.totalBytes.value, n);
    if m.targetBytes.Some? {
      GibHolds(m.targetBytes.value, n);
    }
    var current := InGib(m.totalBytes.value);
    Ratio(current as real, HEADROOM, n as real);
    CeilIsLeast(current as real / HEADROOM, n);
  }

  /** A disk never shrinks; it is increased exactly when the recommended size is larger, and kept otherwise. */
  lemma DisksNeverShrink(m: MountCapacityRaw)
    requires m.totalBytes.Some? ==> m.totalBytes.value >= 0
    ensures AssessMountCapacity(m).None? <==> m.totalBytes.None? || m.totalBytes.value == 0
    ensures AssessMountCapacity(m).Some? ==>
      var s := AssessMountCapacity(m).value;
      && s.recommendedGib >= s.currentGib >= 1
      && (s.action == Increase <==> s.recommendedGib > s.currentGib)
      && (s.action == Keep <==> s.recommendedGib == s.currentGib)
  {
    if m.totalBytes.Some? && m.totalBytes.value > 0 {
      GibHolds(m.totalBytes.value, 0);
      var current := InGib(m.totalBytes.value);
      Ratio(current as real, HEADROOM, current as real);
      CeilIsLeast(current as real / HEADROOM, current);
    }
  }

  /** The host's verdict on its worst mount uses the same rule as the per-mount sizing, for bytes and
      inodes alike; a target comes with it exactly when bytes run out and inodes do not run out first. */
  lemma HostFillsLikeItsMounts(s: ResourceStats)
    ensures AssessDiskCapacity(s).status == Filling <==>
      Exhausting(s.diskRunway, s.diskUsed) || Exhausting(s.inodeRunway, s.inodeUsed)
    ensures AssessDiskCapacity(s).sizingTarget.Some? <==>
      && AtLeast(s.diskTargetGb, 1.0) && Exhausting(s.diskRunway, s.diskUsed)
      && !(Below(s.inodeRunway, RS_DISK_RUNWAY_DAYS)
        && (s.diskRunway.None? || s.inodeRunway.value < s.diskRunway.value))
  {
  }

  // ---------------------------------------------------------------- what the SQL computes

  /** The runway is the number of whole days that the free space lasts at the rate of the span. */
  lemma RunwayIsWholeDays(first: Option<int>, last: Option<int>, span: real, n: nat)
    ensures var runway := RunwayDays(first, last, span);
      && (runway.Some? <==> first.Some? && last.Some? && first.value > last.value >= 0 && span >= 1.25)
      && (runway.Some? ==>
            && runway.value == runway.value.Floor as real >= 0.0
            && (runway.value >= n as real <==>
                  last.value as real >= n as real * FillRate(first.value, last.value, span)))
  {
    if first.Some? && last.Some? && first.value > last.value >= 0 && span >= 1.25 {
      var rate := FillRate(first.value, last.value, span);
      RatePositive(first.value, last.value, span);
      Ratio(last.value as real, rate, n as real);
      Ratio(last.value as real, rate, 0.0);
      FloorAtLeastIff(last.value as real / rate, n);
      FloorAtLeastIff(last.value as real / rate, 0);
    }
  }

  lemma FloorAtLeastIff(x: real, n: int)
    ensures x.Floor >= n <==> x >= n as real
  {
  }

  /** The rate of the span is what it lost per day. */
  lemma RateIsPerDay(first: int, last: int, span: real)
    requires span > 0.0
    ensures FillRate(first, last, span) * span == (first - last) as real
  {
  }

  /** The used share in percent, known exactly when the total and the free space are. */
  lemma UsedPctIs(m: MountSpan)
    ensures UsedPct(m).Some? <==> m.totalBytes.Some? && m.totalBytes.value > 0 && m.freeLast.Some?
    ensures UsedPct(m).Some? ==>
      UsedPct(m).value * m.totalBytes.value as real == (m.totalBytes.value - m.freeLast.value) as real * 100.0
  {
    if UsedPct(m).Some? {
      var total, free := m.totalBytes.value as real, m.freeLast.value as real;
      assert free == free / total * total;
    }
  }

  /** The target is the least size that holds the used bytes and a year of growth; on a short span, that
      holds them and a month of growth at 70 %; without a trend, for a mount used to 85 % and more, that
      holds them at 70 %. */
  lemma TargetIsLeast(m: MountSpan, n: int)
    requires HasTotal(m)
    ensures TargetBytes(m).Some? <==> UsableTrend(m) || (m.freeLast.Some? && m.freeLast.value >= 0 && UsedTo85(m))
    ensures UsableTrend(m) ==>
      var grown := (days: real) => UsedBytes(m) as real + days * RateOf(m);
      && (m.spanDays >= 14.0 ==> (TargetBytes(m).value <= n <==> grown(365.0) <= n as real))
      && (m.spanDays < 14.0 ==> (TargetBytes(m).value <= n <==> grown(30.0) <= 0.7 * n as real))
    ensures !UsableTrend(m) && TargetBytes(m).Some? ==>
      (TargetBytes(m).value <= n <==> UsedBytes(m) as real <= 0.7 * n as real)
  {
    if m.freeLast.Some? {
      UsedTo85Iff(m);
    }
    if UsableTrend(m) {
      var rate := RateOf(m);
      Ratio(UsedBytes(m) as real + 30.0 * rate, 0.7, n as real);
      CeilIsLeast(UsedBytes(m) as real + 365.0 * rate, n);
      CeilIsLeast((UsedBytes(m) as real + 30.0 * rate) / 0.7, n);
    } else if m.freeLast.Some? {
      Ratio(UsedBytes(m) as real, 0.7, n as real);
      CeilIsLeast(UsedBytes(m) as real / 0.7, n);
    }
  }

  /** Bytes lost per day. */
  function RateOf(m: MountSpan): real
    requires UsableTrend(m)
  {
    (m.freeFirst.value - m.freeLast.value) as real / m.spanDays
  }

  predicate UsedTo85(m: MountSpan)
    requires m.totalBytes.Some? && m.freeLast.Some?
  {
    (m.totalBytes.value - m.freeLast.value) * 100 >= 85 * m.totalBytes.value
  }

  lemma UsedTo85Iff(m: MountSpan)
    requires HasTotal(m) && m.freeLast.Some?
    ensures AtLeast(UsedPct(m), RS_DISK_STATIC_GUARD_PCT) <==> UsedTo85(m)
  {
    UsedShareIff(m);
  }

  /** The bytes' runway follows the free bytes and the inodes' one the free inodes. */
  lemma CapacityRowIs(m: MountSpan)
    ensures var row := CapacityRow(m);
      && row.mountpoint == m.mountpoint && row.totalBytes == m.totalBytes && row.inodeUsedPct == m.inodeUsedPct
      && row.usedPct == UsedPct(m) && row.targetBytes == TargetBytes(m)
      && row.byteRunway == RunwayDays(m.freeFirst, m.freeLast, m.spanDays)
      && row.inodeRunway == RunwayDays(m.inodeFirst, m.inodeLast, m.spanDays)
  {
  }

  // ---------------------------------------------------------------- the expansion works

  /** The mount with `gib` GiB, the same used bytes and the same fill rate. */
  function Expanded(m: MountSpan, gib: int): MountSpan
    requires m.totalBytes.Some? && m.freeLast.Some?
  {
    var extra := gib * GIB - m.totalBytes.value;
    m.(totalBytes := Some(gib * GIB), freeLast := Some(m.freeLast.value + extra),
       freeFirst := if m.freeFirst.Some? then Some(m.freeFirst.value + extra) else None)
  }

  /** Free space for `days` days at the rate gives a runway of at least that many whole days. */
  lemma EnoughRunway(first: int, last: int, span: real, days: int)
    requires first > last >= 0 && span >= RATE_MIN_SPAN_DAYS && days >= 0
    requires last as real >= days as real * FillRate(first, last, span)
    ensures RunwayDays(Some(first), Some(last), span).Some?
    ensures RunwayDays(Some(first), Some(last), span).value >= days as real
  {
    var rate := FillRate(first, last, span);
    RatePositive(first, last, span);
    Ratio(last as real, rate, days as real);
    FloorAtLeast(last as real / rate, days);
  }

  lemma FloorAtLeast(x: real, n: int)
    requires x >= n as real
    ensures x.Floor >= n
  {
  }

  lemma QuotientNegates(x: real, n: real)
    requires n != 0.0
    ensures -x / n == -(x / n)
  {
    assert x == x / n * n;
  }

  /** Used share of a size that the used bytes fill at most to 70 %. */
  lemma LowUse(m: MountSpan)
    requires HasTotal(m) && m.freeLast.Some? && UsedBytes(m) as real <= HEADROOM * m.totalBytes.value as real
    ensures UsedPct(m).Some? && UsedPct(m).value < RS_DISK_STATIC_GUARD_PCT
  {
    var total, free := m.totalBytes.value as real, m.freeLast.value as real;
    assert free >= 0.3 * total;
    Ratio(-free, total, -0.3);
    QuotientNegates(free, total);
  }

  /** The free bytes shrink over a span long enough for a rate. */
  predicate UsableTrend(m: MountSpan) {
    Shrinking(m.freeFirst, m.freeLast) && m.spanDays >= RATE_MIN_SPAN_DAYS
  }

  /** The size recommended without a target: the present one with 30 % headroom. */
  function FloorGib(total: int): int {
    Ceil(InGib(total) as real / HEADROOM)
  }

  /** A filling mount resized as recommended, with the same used bytes and fill rate, is not filling any
      more: by the one-year target, the near-horizon target or the static headroom alike.  Only a mount
      with negative free space and no trend, which gets a floor and no target, may still be filling, and
      it is exactly when its used bytes reach the guard share of the floor. */
  lemma ExpansionStopsFillingIff(m: MountSpan)
    requires HasTotal(m) && ByteFilling(m)
    ensures m.freeLast.Some? && AssessMountCapacity(CapacityRow(m)).Some?
    ensures var s := AssessMountCapacity(CapacityRow(m)).value;
      && (s.quality == Exact <==> m.freeLast.value >= 0 || UsableTrend(m))
      && (ByteFilling(Expanded(m, s.recommendedGib)) <==>
            && m.freeLast.value < 0 && !UsableTrend(m)
            && UsedBytes(m) as real >= RS_DISK_STATIC_GUARD_PCT / 100.0 * (FloorGib(m.totalBytes.value) * GIB) as real)
  {
    NoTargetIff(m);
    if TargetBytes(m).Some? {
      TargetStopsFilling(m);
    } else {
      FloorFillsIff(m);
    }
  }

  lemma TargetStopsFilling(m: MountSpan)
    requires HasTotal(m) && ByteFilling(m) && TargetBytes(m).Some?
    ensures m.freeLast.Some? && AssessMountCapacity(CapacityRow(m)).Some?
    ensures !ByteFilling(Expanded(m, AssessMountCapacity(CapacityRow(m)).value.recommendedGib))
  {
    var gib := AssessMountCapacity(CapacityRow(m)).value.recommendedGib;
    RecommendedIsLeast(m, gib);
    var target := TargetBytes(m).value;
    assert gib * GIB >= target && gib * GIB >= m.totalBytes.value;
    if Shrinking(m.freeFirst, m.freeLast) && m.spanDays >= TREND_MIN_SPAN_DAYS {
      YearTargetSuffices(m, gib);
    } else if UsableTrend(m) {
      NearTargetSuffices(m, gib);
    } else {
      StaticTargetSuffices(m, gib);
    }
  }

  lemma FloorFillsIff(m: MountSpan)
    requires HasTotal(m) && ByteFilling(m) && TargetBytes(m).None?
    ensures m.freeLast.Some? && AssessMountCapacity(CapacityRow(m)).Some?
    ensures var gib := AssessMountCapacity(CapacityRow(m)).value.recommendedGib;
      && gib == FloorGib(m.totalBytes.value)
      && (ByteFilling(Expanded(m, gib)) <==>
            UsedBytes(m) as real >= RS_DISK_STATIC_GUARD_PCT / 100.0 * (gib * GIB) as real)
  {
    NoTargetIff(m);
    var current, gib := InGib(m.totalBytes.value), FloorGib(m.totalBytes.value);
    GibHolds(m.totalBytes.value, 0);
    Ratio(current as real, HEADROOM, current as real);
    CeilIsLeast(current as real / HEADROOM, current);
    Ratio(current as real, HEADROOM, 0.0);
    CeilIsLeast(current as real / HEADROOM, 0);
    UsedShareIff(Expanded(m, gib));
  }

  lemma UsedShareIff(m: MountSpan)
    requires HasTotal(m) && m.freeLast.Some?
    ensures AtLeast(UsedPct(m), RS_DISK_STATIC_GUARD_PCT) <==>
      UsedBytes(m) as real >= RS_DISK_STATIC_GUARD_PCT / 100.0 * m.totalBytes.value as real
  {
    var total, free := m.totalBytes.value as real, m.freeLast.value as real;
    Ratio(free, total, 1.0 - RS_DISK_STATIC_GUARD_PCT / 100.0);
    assert (1.0 - RS_DISK_STATIC_GUARD_PCT / 100.0) * total == total - RS_DISK_STATIC_GUARD_PCT / 100.0 * total;
  }

  lemma YearTargetSuffices(m: MountSpan, gib: int)
    requires HasTotal(m) && Shrinking(m.freeFirst, m.freeLast) && m.spanDays >= TREND_MIN_SPAN_DAYS
    requires gib * GIB >= TargetBytes(m).value && gib * GIB >= m.totalBytes.value
    ensures !ByteFilling(Expanded(m, gib))
  {
    var e := Expanded(m, gib);
    var rate := FillRate(m.freeFirst.value, m.freeLast.value, m.spanDays);
    assert FillRate(e.freeFirst.value, e.freeLast.value, m.spanDays) == rate;
    assert e.freeLast.value as real >= 365.0 * rate;
    EnoughRunway(e.freeFirst.value, e.freeLast.value, m.spanDays, 365);
  }

  lemma NearTargetSuffices(m: MountSpan, gib: int)
    requires HasTotal(m) && Shrinking(m.freeFirst, m.freeLast) && RATE_MIN_SPAN_DAYS <= m.spanDays < TREND_MIN_SPAN_DAYS
    requires gib * GIB >= TargetBytes(m).value && gib * GIB >= m.totalBytes.value
    ensures !ByteFilling(Expanded(m, gib))
  {
    var e := Expanded(m, gib);
    var rate := FillRate(m.freeFirst.value, m.freeLast.value, m.spanDays);
    RatePositive(m.freeFirst.value, m.freeLast.value, m.spanDays);
    assert FillRate(e.freeFirst.value, e.freeLast.value, m.spanDays) == rate;
    var need := UsedBytes(m) as real + NEAR_HORIZON_DAYS * rate;
    Ratio(need, HEADROOM, (gib * GIB) as real);
    assert e.freeLast.value as real >= 30.0 * rate;
    EnoughRunway(e.freeFirst.value, e.freeLast.value, m.spanDays, 30);
  }

  lemma StaticTargetSuffices(m: MountSpan, gib: int)
    requires HasTotal(m) && m.freeLast.Some? && m.freeLast.value >= 0 && ByteFilling(m)
    requires !(Shrinking(m.freeFirst, m.freeLast) && m.spanDays >= RATE_MIN_SPAN_DAYS)
    requires TargetBytes(m).Some? && gib * GIB >= TargetBytes(m).value && gib * GIB >= m.totalBytes.value
    ensures !ByteFilling(Expanded(m, gib))
  {
    var e := Expanded(m, gib);
    Ratio(UsedBytes(m) as real, HEADROOM, (gib * GIB) as real);
    LowUse(e);
  }
}
