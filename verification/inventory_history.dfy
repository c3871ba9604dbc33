/**
 How far `server_inventory_history` may lag behind `server_inventory`.  A snapshot is appended only
 when a compared column differs from the row the transaction read, and boot_time differences of up to
 five seconds do not count, so small shifts can add up between two history rows.  Handlers run
 concurrently, so the row read may be older than the row overwritten, and a change can be missed.
 */
module InventoryHistory {
  import opened Wrappers
  import opened CollectStore

  predicate IsUpsert(w: Write, agent: AgentId) {
    w.InventoryWrite? && w.agent == agent
  }

  ghost predicate DistinctInstants(ws: seq<Write>, agent: AgentId) {
    forall i, j | 0 <= i < j < |ws| && IsUpsert(ws[i], agent) && IsUpsert(ws[j], agent) ::
      ws[i].inventory.collectedAt != ws[j].inventory.collectedAt
  }

  ghost predicate IncreasingInstants(ws: seq<Write>, agent: AgentId) {
    forall i, j | 0 <= i < j < |ws| && IsUpsert(ws[i], agent) && IsUpsert(ws[j], agent) ::
      ws[i].inventory.collectedAt < ws[j].inventory.collectedAt
  }

  /** The history rows of one server, oldest append first. */
  function HistoryOf(history: seq<HistoryRow>, serverId: nat): seq<HistoryRow> {
    if history == [] then [] else
      HistoryOf(history[..|history| - 1], serverId)
      + if history[|history| - 1].serverId == serverId then [history[|history| - 1]] else []
  }

  /** The agent's history rows after the run. */
  function Trail(ws: seq<Write>, agent: AgentId): seq<HistoryRow> {
    if agent in After(ws).servers then HistoryOf(After(ws).history, After(ws).servers[agent].id) else []
  }

  /** Upserts of the agent since the one that appended its last history row. */
  function UpsertsSinceAppend(ws: seq<Write>, agent: AgentId): nat {
    if ws == [] then 0 else
      var prior := ws[..|ws| - 1];
      if !IsUpsert(ws[|ws| - 1], agent) then UpsertsSinceAppend(prior, agent)
      else if Trail(ws, agent) != Trail(prior, agent) then 0
      else UpsertsSinceAppend(prior, agent) + 1
  }

  /** No snapshot of the trail was taken at the instant. */
  predicate FreshInstant(trail: seq<HistoryRow>, collectedAt: int) {
    forall k | 0 <= k < |trail| :: trail[k].collectedAt != collectedAt
  }

  /** Both boot times absent, or at most `steps` tolerances apart. */
  predicate BootWithin(a: Option<int>, b: Option<int>, steps: nat) {
    if a.None? || b.None? then a == b
    else Distance(a.value, b.value) <= BOOT_TIME_JITTER_TOLERANCE * steps
  }

  // ---------------------------------------------------------------- one upsert

  /** The change test is exact on the compared columns and tolerant on boot_time. */
  lemma UnchangedMeans(prev: Inventory, new_: Inventory)
    ensures !InventoryChanged(prev, new_) <==>
      prev.columns == new_.columns && BootWithin(prev.bootTime, new_.bootTime, 1)
  {
    if forall k | 0 <= k < |COMPARED_COLUMNS| :: prev.columns[k] == new_.columns[k] {
      assert prev.columns == new_.columns;
    }
  }

  lemma BootWithinAdds(a: Option<int>, b: Option<int>, c: Option<int>, steps: nat)
    requires BootWithin(a, b, steps) && BootWithin(b, c, 1)
    ensures BootWithin(a, c, steps + 1)
  {
  }

  lemma {:induction false} HistoryOfConcat(a: seq<HistoryRow>, b: seq<HistoryRow>, serverId: nat)
    ensures HistoryOf(a + b, serverId) == HistoryOf(a, serverId) + HistoryOf(b, serverId)
  {
    if b == [] {
      assert a + b == a;
    } else {
      assert (a + b)[..|a + b| - 1] == a + b[..|b| - 1];
      HistoryOfConcat(a, b[..|b| - 1], serverId);
    }
  }

  lemma {:induction false} HistoryOfMember(history: seq<HistoryRow>, serverId: nat, collectedAt: int)
    ensures HasHistory(history, serverId, collectedAt)
       <==> !FreshInstant(HistoryOf(history, serverId), collectedAt)
  {
    if history != [] {
      var prior, last := history[..|history| - 1], history[|history| - 1];
      HistoryOfMember(prior, serverId, collectedAt);
      var trail := HistoryOf(history, serverId);
      if HasHistory(prior, serverId, collectedAt) {
        var k :| 0 <= k < |HistoryOf(prior, serverId)| && HistoryOf(prior, serverId)[k].collectedAt == collectedAt;
        assert trail[k].collectedAt == collectedAt;
        var i :| 0 <= i < |prior| && prior[i].serverId == serverId && prior[i].collectedAt == collectedAt;
        assert history[i].serverId == serverId;
      } else if last.serverId == serverId && last.collectedAt == collectedAt {
        assert trail[|trail| - 1].collectedAt == collectedAt;
      }
    }
  }

  lemma {:induction false} HistoryOfUnknownServer(history: seq<HistoryRow>, serverId: nat)
    requires forall k | 0 <= k < |history| :: history[k].serverId != serverId
    ensures HistoryOf(history, serverId) == []
  {
    if history != [] {
      HistoryOfUnknownServer(history[..|history| - 1], serverId);
    }
  }

  lemma AppendedTrail(history: seq<HistoryRow>, serverId: nat, data: Inventory, other: nat)
    ensures HistoryOf(AppendHistory(history, serverId, data), other)
         == HistoryOf(history, other)
            + if serverId == other && !HasHistory(history, serverId, data.collectedAt)
              then [SnapshotOf(serverId, data)] else []
  {
    var row := SnapshotOf(serverId, data);
    HistoryOfConcat(history, [row], other);
    assert [row][..0] == [];
  }

  // ---------------------------------------------------------------- whole runs

  /** Writes about other agents, and metrics messages, leave an agent's trail alone. */
  lemma OtherWritesKeepTrail(ws: seq<Write>, agent: AgentId)
    requires ws != [] && !IsUpsert(ws[|ws| - 1], agent)
    ensures Trail(ws, agent) == Trail(ws[..|ws| - 1], agent)
    ensures agent in After(ws[..|ws| - 1]).servers ==>
      agent in After(ws).servers && After(ws).servers[agent] == After(ws[..|ws| - 1]).servers[agent]
    ensures agent !in After(ws[..|ws| - 1]).servers && agent in After(ws).servers ==>
      ws[|ws| - 1].agent == agent && After(ws).servers[agent].inventory == ws[|ws| - 1].placeholder
  {
    var prior, w := ws[..|ws| - 1], ws[|ws| - 1];
    var s := After(prior);
    ServerIdsAreDistinct(prior);
    if w.MetricsWrite? && agent !in s.servers && w.agent == agent {
      HistoryOfUnknownServer(s.history, s.nextId);
    }
    if w.InventoryWrite? && agent in s.servers {
      var id := if w.agent in s.servers then s.servers[w.agent].id else s.nextId;
      AppendedTrail(s.history, id, w.inventory, s.servers[agent].id);
    }
  }

  /** The trail's instants are instants of the agent's upserts. */
  ghost predicate TrailComesFrom(ws: seq<Write>, agent: AgentId) {
    forall k | 0 <= k < |Trail(ws, agent)| ::
      exists i :: 0 <= i < |ws| && IsUpsert(ws[i], agent)
        && ws[i].inventory.collectedAt == Trail(ws, agent)[k].collectedAt
  }

  /** The last history row, if there is one, agrees with the current row, up to the boot time drift. */
  ghost predicate InStep(ws: seq<Write>, agent: AgentId) {
    agent in After(ws).servers && Trail(ws, agent) != [] ==>
      var current, trail := After(ws).servers[agent].inventory, Trail(ws, agent);
      && trail[|trail| - 1].columns == current.columns
      && BootWithin(trail[|trail| - 1].bootTime, current.bootTime, UpsertsSinceAppend(ws, agent))
  }

  /** The run's last write changes the agent's row but compares equal with the older row it read. */
  predicate Misses(ws: seq<Write>, agent: AgentId) {
    ws != [] && IsUpsert(ws[|ws| - 1], agent) &&
    var s, w := After(ws[..|ws| - 1]), ws[|ws| - 1];
    agent in s.servers && InventoryChanged(s.servers[agent].inventory, w.inventory) && !Records(w.read, w.inventory)
  }

  /** No upsert of the agent misses a change. */
  predicate MissesNone(ws: seq<Write>, agent: AgentId) {
    ws == [] || (MissesNone(ws[..|ws| - 1], agent) && !Misses(ws, agent))
  }

  /** What one upsert of the agent does to its trail. */
  lemma UpsertTrail(ws: seq<Write>, agent: AgentId)
    requires ws != [] && IsUpsert(ws[|ws| - 1], agent)
    ensures var prior, data := ws[..|ws| - 1], ws[|ws| - 1].inventory;
      && agent in After(ws).servers && After(ws).servers[agent].inventory == data
      && (var appends := Records(ws[|ws| - 1].read, data) && FreshInstant(Trail(prior, agent), data.collectedAt);
          Trail(ws, agent) == Trail(prior, agent)
            + if appends then [SnapshotOf(After(ws).servers[agent].id, data)] else [])
  {
    var prior, data := ws[..|ws| - 1], ws[|ws| - 1].inventory;
    var s := After(prior);
    ServerIdsAreDistinct(prior);
    var id := if agent in s.servers then s.servers[agent].id else s.nextId;
    if agent !in s.servers {
      HistoryOfUnknownServer(s.history, id);
    }
    AppendedTrail(s.history, id, data, id);
    HistoryOfMember(s.history, id, data.collectedAt);
  }

  lemma TrailComesFromStep(ws: seq<Write>, agent: AgentId)
    requires ws != [] && TrailComesFrom(ws[..|ws| - 1], agent)
    requires !IsUpsert(ws[|ws| - 1], agent) ==> Trail(ws, agent) == Trail(ws[..|ws| - 1], agent)
    ensures TrailComesFrom(ws, agent)
  {
    var prior := ws[..|ws| - 1];
    if IsUpsert(ws[|ws| - 1], agent) { UpsertTrail(ws, agent); }
    assert Trail(prior, agent) <= Trail(ws, agent);
    forall k | 0 <= k < |Trail(ws, agent)|
      ensures exists i :: 0 <= i < |ws| && IsUpsert(ws[i], agent)
                && ws[i].inventory.collectedAt == Trail(ws, agent)[k].collectedAt
    {
      if k < |Trail(prior, agent)| {
        assert Trail(ws, agent)[k] == Trail(prior, agent)[k];
        var i :| 0 <= i < |prior| && IsUpsert(prior[i], agent)
                 && prior[i].inventory.collectedAt == Trail(prior, agent)[k].collectedAt;
        assert ws[i] == prior[i];
      } else {
        assert IsUpsert(ws[|ws| - 1], agent);
      }
    }
  }

  lemma InStepStep(ws: seq<Write>, agent: AgentId)
    requires ws != [] && InStep(ws[..|ws| - 1], agent) && IsUpsert(ws[|ws| - 1], agent) && !Misses(ws, agent)
    requires FreshInstant(Trail(ws[..|ws| - 1], agent), ws[|ws| - 1].inventory.collectedAt)
    ensures InStep(ws, agent)
  {
    hide RunFrom, Trail, HistoryOf, InventoryChanged;
    UpsertTrail(ws, agent);
    if Trail(ws, agent) == Trail(ws[..|ws| - 1], agent) {
      SilentUpsert(ws, agent);
    }
  }

  /** An upsert that appends nothing moves the current row by at most one tolerance. */
  lemma SilentUpsert(ws: seq<Write>, agent: AgentId)
    requires ws != [] && InStep(ws[..|ws| - 1], agent) && IsUpsert(ws[|ws| - 1], agent) && !Misses(ws, agent)
    requires FreshInstant(Trail(ws[..|ws| - 1], agent), ws[|ws| - 1].inventory.collectedAt)
    requires Trail(ws, agent) == Trail(ws[..|ws| - 1], agent)
    ensures InStep(ws, agent)
  {
    var prior, data := ws[..|ws| - 1], ws[|ws| - 1].inventory;
    var trail := Trail(prior, agent);
    UpsertTrail(ws, agent);
    if trail != [] {
      var before := After(prior).servers[agent].inventory;
      UnchangedMeans(before, data);
      BootWithinAdds(trail[|trail| - 1].bootTime, before.bootTime, data.bootTime, UpsertsSinceAppend(prior, agent));
    }
  }

  lemma FreshAfterDistinct(ws: seq<Write>, agent: AgentId)
    requires ws != [] && DistinctInstants(ws, agent) && IsUpsert(ws[|ws| - 1], agent)
    requires TrailComesFrom(ws[..|ws| - 1], agent)
    ensures FreshInstant(Trail(ws[..|ws| - 1], agent), ws[|ws| - 1].inventory.collectedAt)
  {
    var prior := ws[..|ws| - 1];
    forall k | 0 <= k < |Trail(prior, agent)|
      ensures Trail(prior, agent)[k].collectedAt != ws[|ws| - 1].inventory.collectedAt
    {
      var i :| 0 <= i < |prior| && IsUpsert(prior[i], agent)
               && prior[i].inventory.collectedAt == Trail(prior, agent)[k].collectedAt;
      assert ws[i] == prior[i];
    }
  }

  lemma UpsertKeepsStep(ws: seq<Write>, agent: AgentId)
    requires ws != [] && IsUpsert(ws[|ws| - 1], agent) && DistinctInstants(ws, agent) && !Misses(ws, agent)
    requires InStep(ws[..|ws| - 1], agent)
    ensures InStep(ws, agent)
  {
    TrailComesFromUpserts(ws[..|ws| - 1], agent);
    FreshAfterDistinct(ws, agent);
    InStepStep(ws, agent);
  }

  lemma OtherKeepsStep(ws: seq<Write>, agent: AgentId)
    requires ws != [] && !IsUpsert(ws[|ws| - 1], agent)
    requires InStep(ws[..|ws| - 1], agent)
    ensures InStep(ws, agent)
  {
    OtherWritesKeepTrail(ws, agent);
  }

  lemma {:induction false} TrailComesFromUpserts(ws: seq<Write>, agent: AgentId)
    ensures TrailComesFrom(ws, agent)
  {
    if ws == [] {
      assert Trail(ws, agent) == [];
    } else {
      TrailComesFromUpserts(ws[..|ws| - 1], agent);
      if !IsUpsert(ws[|ws| - 1], agent) {
        OtherWritesKeepTrail(ws, agent);
      }
      TrailComesFromStep(ws, agent);
    }
  }

  lemma {:induction false} HistoryKeepsStep(ws: seq<Write>, agent: AgentId)
    requires DistinctInstants(ws, agent) && MissesNone(ws, agent)
    ensures InStep(ws, agent)
  {
    if ws == [] {
      assert Trail(ws, agent) == [];
    } else {
      PrefixIsDistinct(ws, agent);
      HistoryKeepsStep(ws[..|ws| - 1], agent);
      if IsUpsert(ws[|ws| - 1], agent) {
        UpsertKeepsStep(ws, agent);
      } else {
        OtherKeepsStep(ws, agent);
      }
    }
  }

  lemma PrefixIsDistinct(ws: seq<Write>, agent: AgentId)
    requires ws != [] && DistinctInstants(ws, agent)
    ensures DistinctInstants(ws[..|ws| - 1], agent)
  {
    var prior := ws[..|ws| - 1];
    forall i, j | 0 <= i < j < |prior| && IsUpsert(prior[i], agent) && IsUpsert(prior[j], agent)
      ensures prior[i].inventory.collectedAt != prior[j].inventory.collectedAt
    {
      assert ws[i] == prior[i] && ws[j] == prior[j];
    }
  }

  /** The drift bound.  For every agent that never repeats an instant and whose upserts miss no change,
      however stale their reads, however it registered and whatever other agents and metrics do: its last
      history row equals the current row on every compared column, and the boot times are both absent or
      at most five seconds per upsert since that row apart. */
  lemma HistoryDriftIsBounded(ws: seq<Write>, agent: AgentId)
    requires DistinctInstants(ws, agent) && MissesNone(ws, agent)
    requires agent in After(ws).servers && Trail(ws, agent) != []
    ensures var last, current := Trail(ws, agent)[|Trail(ws, agent)| - 1], After(ws).servers[agent].inventory;
      && last.columns == current.columns
      && (last.bootTime.None? <==> current.bootTime.None?)
      && (last.bootTime.Some? ==>
            Distance(last.bootTime.value, current.bootTime.value)
              <= BOOT_TIME_JITTER_TOLERANCE * UpsertsSinceAppend(ws, agent))
  {
    HistoryKeepsStep(ws, agent);
  }

  predicate AllBefore(trail: seq<HistoryRow>, at: int) {
    forall k | 0 <= k < |trail| :: trail[k].collectedAt < at
  }

  lemma ChronologicalStep(ws: seq<Write>, agent: AgentId)
    requires ws != [] && IncreasingInstants(ws, agent) && IsUpsert(ws[|ws| - 1], agent)
    requires TrailComesFrom(ws[..|ws| - 1], agent)
    ensures AllBefore(Trail(ws[..|ws| - 1], agent), ws[|ws| - 1].inventory.collectedAt)
  {
    var prior := ws[..|ws| - 1];
    forall k | 0 <= k < |Trail(prior, agent)|
      ensures Trail(prior, agent)[k].collectedAt < ws[|ws| - 1].inventory.collectedAt
    {
      var i :| 0 <= i < |prior| && IsUpsert(prior[i], agent)
               && prior[i].inventory.collectedAt == Trail(prior, agent)[k].collectedAt;
      assert ws[i] == prior[i];
    }
  }

  ghost predicate Chronological(trail: seq<HistoryRow>) {
    forall i, j | 0 <= i < j < |trail| :: trail[i].collectedAt < trail[j].collectedAt
  }

  /** When the agent's instants increase, its history rows are in time order, so the last row appended
      is also the latest one. */
  lemma {:induction false} TrailIsChronological(ws: seq<Write>, agent: AgentId)
    requires IncreasingInstants(ws, agent)
    ensures Chronological(Trail(ws, agent))
  {
    hide RunFrom, HistoryOf, InventoryChanged;
    if ws == [] {
      NoTrailYet(agent);
    } else {
      hide Trail;
      PrefixIsIncreasing(ws, agent);
      TrailIsChronological(ws[..|ws| - 1], agent);
      if IsUpsert(ws[|ws| - 1], agent) {
        TrailComesFromUpserts(ws[..|ws| - 1], agent);
        ChronologicalStep(ws, agent);
        UpsertTrail(ws, agent);
      } else {
        OtherWritesKeepTrail(ws, agent);
      }
    }
  }

  lemma NoTrailYet(agent: AgentId)
    ensures Trail([], agent) == []
  {
  }

  lemma PrefixIsIncreasing(ws: seq<Write>, agent: AgentId)
    requires ws != [] && IncreasingInstants(ws, agent)
    ensures IncreasingInstants(ws[..|ws| - 1], agent) && DistinctInstants(ws[..|ws| - 1], agent)
  {
    var prior := ws[..|ws| - 1];
    forall i, j | 0 <= i < j < |prior| && IsUpsert(prior[i], agent) && IsUpsert(prior[j], agent)
      ensures prior[i].inventory.collectedAt < prior[j].inventory.collectedAt
    {
      assert ws[i] == prior[i] && ws[j] == prior[j];
    }
  }

  // ---------------------------------------------------------------- stale reads

  /** Every upsert of the agent read a row that was current at some earlier commit. */
  ghost predicate RealReads(ws: seq<Write>, agent: AgentId) {
    forall i | 0 <= i < |ws| && IsUpsert(ws[i], agent) ::
      exists j :: 0 <= j <= i && ws[i].read == RowRead(After(ws[..j]), agent)
  }

  /** No inventory of the agent commits between the read of an upsert and the upsert. */
  predicate FreshReads(ws: seq<Write>, agent: AgentId) {
    ws == [] ||
    (FreshReads(ws[..|ws| - 1], agent)
     && (IsUpsert(ws[|ws| - 1], agent) ==> ws[|ws| - 1].read == RowRead(After(ws[..|ws| - 1]), agent)))
  }

  lemma {:induction false} FreshReadsMissNothing(ws: seq<Write>, agent: AgentId)
    requires FreshReads(ws, agent)
    ensures MissesNone(ws, agent)
  {
    if ws != [] {
      FreshReadsMissNothing(ws[..|ws| - 1], agent);
    }
  }

  /** An upsert that read an older row does what one that read the current row does exactly when both
      rows give the same answer to the change test, or the instant has its history row already. */
  lemma StaleReadHarmlessIff(s: Store, agent: AgentId, data: Inventory, read: Option<Inventory>)
    requires agent in s.servers
    ensures UpsertServer(s, agent, data, read) == UpsertServer(s, agent, data, RowRead(s, agent)) <==>
      || (Records(read, data) <==> InventoryChanged(s.servers[agent].inventory, data))
      || HasHistory(s.history, s.servers[agent].id, data.collectedAt)
  {
  }

  /** The last history row, if there is one, has the columns of the current row. */
  predicate ShowsColumns(ws: seq<Write>, agent: AgentId) {
    agent in After(ws).servers && Trail(ws, agent) != [] ==>
      Trail(ws, agent)[|Trail(ws, agent)| - 1].columns == After(ws).servers[agent].inventory.columns
  }

  predicate AlwaysShowsColumns(ws: seq<Write>, agent: AgentId) {
    ShowsColumns(ws, agent) && (ws == [] || AlwaysShowsColumns(ws[..|ws| - 1], agent))
  }

  /** The run's last write changes the columns of a row with history, equal to those it read. */
  predicate LosesColumns(ws: seq<Write>, agent: AgentId) {
    ws != [] && IsUpsert(ws[|ws| - 1], agent) && Trail(ws[..|ws| - 1], agent) != [] &&
    var s, w := After(ws[..|ws| - 1]), ws[|ws| - 1];
    s.servers[agent].inventory.columns != w.inventory.columns && !Records(w.read, w.inventory)
  }

  predicate LosesNoColumns(ws: seq<Write>, agent: AgentId) {
    ws == [] || (LosesNoColumns(ws[..|ws| - 1], agent) && !LosesColumns(ws, agent))
  }

  lemma OnlyTheRegisteredHaveHistory(ws: seq<Write>, agent: AgentId)
    ensures Trail(ws, agent) != [] ==> agent in After(ws).servers
  {
  }

  lemma ShowsColumnsStep(ws: seq<Write>, agent: AgentId)
    requires ws != [] && DistinctInstants(ws, agent) && ShowsColumns(ws[..|ws| - 1], agent)
    ensures ShowsColumns(ws, agent) <==> !LosesColumns(ws, agent)
  {
    hide RunFrom, Trail, HistoryOf, InventoryChanged, Records;
    OnlyTheRegisteredHaveHistory(ws[..|ws| - 1], agent);
    if IsUpsert(ws[|ws| - 1], agent) {
      TrailComesFromUpserts(ws[..|ws| - 1], agent);
      FreshAfterDistinct(ws, agent);
      UpsertTrail(ws, agent);
    } else {
      OtherWritesKeepTrail(ws, agent);
    }
  }

  /** All along a run the history ends with the current columns exactly when no upsert found the columns
      it brings in an outdated row while the current row had others. */
  lemma {:induction false} ShowsColumnsIff(ws: seq<Write>, agent: AgentId)
    requires DistinctInstants(ws, agent)
    ensures AlwaysShowsColumns(ws, agent) <==> LosesNoColumns(ws, agent)
  {
    if ws == [] {
      assert Trail(ws, agent) == [];
    } else {
      PrefixIsDistinct(ws, agent);
      ShowsColumnsIff(ws[..|ws| - 1], agent);
      if AlwaysShowsColumns(ws[..|ws| - 1], agent) {
        assert ShowsColumns(ws[..|ws| - 1], agent);
        ShowsColumnsStep(ws, agent);
      }
    }
  }

  // ---------------------------------------------------------------- when there is no history row

  /** The first message of the agent was a metrics message. */
  predicate RegisteredByMetrics(ws: seq<Write>, agent: AgentId) {
    ws != [] &&
    (if agent in After(ws[..|ws| - 1]).servers then RegisteredByMetrics(ws[..|ws| - 1], agent)
     else ws[|ws| - 1].agent == agent && ws[|ws| - 1].MetricsWrite?)
  }

  /** Every inventory of the agent was unchanged from the row its transaction had read. */
  predicate AllSilent(ws: seq<Write>, agent: AgentId) {
    ws == [] ||
    (AllSilent(ws[..|ws| - 1], agent)
     && (IsUpsert(ws[|ws| - 1], agent) ==> !Records(ws[|ws| - 1].read, ws[|ws| - 1].inventory)))
  }

  lemma PrefixReadsReal(ws: seq<Write>, agent: AgentId)
    requires ws != [] && RealReads(ws, agent)
    ensures RealReads(ws[..|ws| - 1], agent)
  {
    var prior := ws[..|ws| - 1];
    forall i | 0 <= i < |prior| && IsUpsert(prior[i], agent)
      ensures exists j :: 0 <= j <= i && prior[i].read == RowRead(After(prior[..j]), agent)
    {
      assert ws[i] == prior[i];
      var j :| 0 <= j <= i && ws[i].read == RowRead(After(ws[..j]), agent);
      assert prior[..j] == ws[..j];
    }
  }

  /** An unregistered agent has no row to read. */
  lemma FirstReadIsNone(ws: seq<Write>, agent: AgentId)
    requires ws != [] && RealReads(ws, agent) && IsUpsert(ws[|ws| - 1], agent)
    requires agent !in After(ws[..|ws| - 1]).servers
    ensures ws[|ws| - 1].read == None
  {
    hide RunFrom;
    var prior := ws[..|ws| - 1];
    var j :| 0 <= j <= |ws| - 1 && ws[|ws| - 1].read == RowRead(After(ws[..j]), agent);
    assert prior == ws[..j] + ws[j..|ws| - 1];
    RunFromConcat(EmptyStore, ws[..j], ws[j..|ws| - 1]);
    if agent in After(ws[..j]).servers {
      RunKeepsServers(After(ws[..j]), ws[j..|ws| - 1], agent);
    }
  }

  lemma {:induction false} NotMentioned(ws: seq<Write>, agent: AgentId)
    requires agent !in After(ws).servers
    ensures AllSilent(ws, agent)
  {
    if ws != [] {
      NotMentioned(ws[..|ws| - 1], agent);
    }
  }

  /** A registered agent has no history row exactly when a metrics message registered it and every
      inventory since was unchanged from the row its transaction had read. */
  lemma {:induction false} NoHistoryIff(ws: seq<Write>, agent: AgentId)
    requires agent in After(ws).servers && RealReads(ws, agent)
    ensures Trail(ws, agent) == [] <==> RegisteredByMetrics(ws, agent) && AllSilent(ws, agent)
  {
    var prior, w := ws[..|ws| - 1], ws[|ws| - 1];
    if agent in After(prior).servers {
      PrefixReadsReal(ws, agent);
      NoHistoryIff(prior, agent);
    } else {
      NotMentioned(prior, agent);
    }
    if IsUpsert(w, agent) {
      UpsertTrail(ws, agent);
      if agent !in After(prior).servers {
        FirstReadIsNone(ws, agent);
      }
    } else {
      OtherWritesKeepTrail(ws, agent);
    }
  }

  // ---------------------------------------------------------------- the bound is reached

  function CreepingInventory(n: nat, columns: Columns): Inventory {
    Inventory("h", None, None, [], columns, Some(BOOT_TIME_JITTER_TOLERANCE * n), n)
  }

  /** `n + 1` upserts of one agent whose boot time creeps by the tolerance each time. */
  function Creeping(n: nat, columns: Columns): seq<Write> {
    if n == 0 then
      [InventoryWrite("a", CreepingInventory(0, columns), None)]
    else
      Creeping(n - 1, columns)
      + [InventoryWrite("a", CreepingInventory(n, columns), Some(CreepingInventory(n - 1, columns)))]
  }

  /** One history row, from the first upsert, with the current boot time `n` tolerances later. */
  predicate Drifted(ws: seq<Write>, n: nat, columns: Columns) {
    && "a" in After(ws).servers
    && Trail(ws, "a") == [HistoryRow(After(ws).servers["a"].id, 0, "h", columns, Some(0))]
    && After(ws).servers["a"].inventory == CreepingInventory(n, columns)
    && UpsertsSinceAppend(ws, "a") == n
  }

  lemma DriftStarts(columns: Columns)
    ensures Drifted(Creeping(0, columns), 0, columns)
  {
    var ws := Creeping(0, columns);
    assert ws[..0] == [];
    UpsertTrail(ws, "a");
  }

  /** The drift behind a single history row grows without bound: after `n` silent upserts it is
      exactly `n` tolerances. */
  lemma {:induction false} DriftIsReached(n: nat, columns: Columns)
    ensures Drifted(Creeping(n, columns), n, columns)
  {
    if n == 0 {
      DriftStarts(columns);
    } else {
      DriftIsReached(n - 1, columns);
      DriftStep(n, columns);
    }
  }

  lemma DriftStep(n: nat, columns: Columns)
    requires n > 0 && Drifted(Creeping(n - 1, columns), n - 1, columns)
    ensures Drifted(Creeping(n, columns), n, columns)
  {
    var prior, ws := Creeping(n - 1, columns), Creeping(n, columns);
    var w := InventoryWrite("a", CreepingInventory(n, columns), Some(CreepingInventory(n - 1, columns)));
    assert ws == prior + [w] && ws[..|ws| - 1] == prior;
    UnchangedMeans(CreepingInventory(n - 1, columns), w.inventory);
    UpsertTrail(ws, "a");
    ServerIdIsStable(After(prior), w, "a");
  }

  // ---------------------------------------------------------------- why the conditions are needed

  lemma RunOfTwo(a: Write, b: Write)
    ensures [a, b][..1] == [a] && [a][..0] == []
    ensures After([a, b]) == Apply(Apply(EmptyStore, a), b)
  {
    assert [a, b][..1] == [a] && [a][..0] == [];
    assert RunFrom(EmptyStore, [a]) == Apply(EmptyStore, a);
  }

  /** Two different snapshots of one instant: the second one overwrites the current row but its
      history row is dropped, so the trail no longer shows the current columns. */
  lemma RepeatedInstantLosesHistory(at: int, before: Columns, after: Columns)
    requires before != after
    ensures var first, second := Inventory("h", None, None, [], before, None, at),
      Inventory("h", None, None, [], after, None, at);
      var ws := [InventoryWrite("a", first, None), InventoryWrite("a", second, Some(first))];
      "a" in After(ws).servers && After(ws).servers["a"].inventory == second
      && Trail(ws, "a") == [HistoryRow(0, at, "h", before, None)]
  {
    var first, second := Inventory("h", None, None, [], before, None, at),
      Inventory("h", None, None, [], after, None, at);
    var ws := [InventoryWrite("a", first, None), InventoryWrite("a", second, Some(first))];
    RunOfTwo(ws[0], ws[1]);
    var s1 := Apply(EmptyStore, ws[0]);
    assert s1.history == [HistoryRow(0, at, "h", before, None)] && s1.servers["a"].id == 0;
    assert HasHistory(s1.history, 0, at) by { assert s1.history[0].collectedAt == at; }
    var s2 := Apply(s1, ws[1]);
    assert s2.history == s1.history && s2.servers["a"].id == 0;
    assert s1.history[..0] == [];
    assert HistoryOf(s1.history, 0) == s1.history;
  }

  lemma RunOfThree(a: Write, b: Write, c: Write)
    ensures [a, b, c][..2] == [a, b] && [a, b, c][..1] == [a] && [a, b, c][..0] == []
    ensures After([a, b, c]) == Apply(Apply(Apply(EmptyStore, a), b), c)
  {
    assert [a, b, c][..2] == [a, b] && [a, b, c][..1] == [a] && [a, b, c][..0] == [];
    RunOfTwo(a, b);
  }

  /** Two handlers read the row A; one stores B with its history row, then the other stores A again as
      unchanged: the current row is A, and the last history row is B. */
  function Raced(one: Columns, other: Columns): seq<Write> {
    var first := Inventory("h", None, None, [], one, None, 0);
    [InventoryWrite("a", first, None),
     InventoryWrite("a", Inventory("h", None, None, [], other, None, 1), Some(first)),
     InventoryWrite("a", Inventory("h", None, None, [], one, None, 2), Some(first))]
  }

  lemma RacedReadsAreReal(one: Columns, other: Columns)
    ensures RealReads(Raced(one, other), "a")
  {
    var ws := Raced(one, other);
    RunOfThree(ws[0], ws[1], ws[2]);
    RunOfTwo(ws[0], ws[1]);
    assert ws[0].read == RowRead(After(ws[..0]), "a");
    assert ws[1].read == RowRead(After(ws[..1]), "a") && ws[2].read == RowRead(After(ws[..1]), "a");
  }

  /** The first two upserts of that run record their snapshots. */
  lemma RacedRecords(one: Columns, other: Columns)
    requires one != other
    ensures var pair := Raced(one, other)[..2];
      && "a" in After(pair).servers && After(pair).servers["a"].inventory == pair[1].inventory
      && |Trail(pair, "a")| == 2 && Trail(pair, "a")[0].collectedAt == 0
      && Trail(pair, "a")[1].collectedAt == 1 && Trail(pair, "a")[1].columns == other
  {
    hide HistoryOf, CollectStore.Apply, InventoryChanged;
    var a, b := Raced(one, other)[0], Raced(one, other)[1];
    assert Raced(one, other)[..2] == [a, b] && [a, b][..1] == [a] && [a][..0] == [];
    UnchangedMeans(a.inventory, b.inventory);
    NoTrailYet("a");
    UpsertTrail([a], "a");
    UpsertTrail([a, b], "a");
  }

  lemma StaleReadLosesHistory(one: Columns, other: Columns)
    requires one != other
    ensures var ws := Raced(one, other);
      && "a" in After(ws).servers && After(ws).servers["a"].inventory.columns == one
      && |Trail(ws, "a")| == 2 && Trail(ws, "a")[1].columns == other
  {
    hide HistoryOf, CollectStore.Apply, InventoryChanged, RunFrom, Trail;
    var ws := Raced(one, other);
    RacedRecords(one, other);
    UnchangedMeans(ws[0].inventory, ws[2].inventory);
    assert ws[..|ws| - 1] == ws[..2];
    UpsertTrail(ws, "a");
  }
}
