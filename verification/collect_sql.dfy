/**
 The repository the consumer uses inside one transaction.  `view` is what the session sees: its own
 uncommitted statements on top of the committed rows.
 */
module CollectSql {
  import opened Wrappers
  import opened CollectStore
  import opened MetricsIngest

  /** Rows each INSERT added; a conflict counts as zero. */
  datatype MetricInsertResult = MetricInsertResult(
    metrics: nat, diskIo: nat, netIo: nat, filesystem: nat, cpuCore: nat, pressure: nat, diskError: nat)
  {
    function Get(table: TableName): nat {
      match table
      case Metrics => metrics
      case DiskIo => diskIo
      case NetIo => netIo
      case Filesystem => filesystem
      case CpuCore => cpuCore
      case Pressure => pressure
      case DiskError => diskError
    }
  }

  /** The keys a message brings that the table lacks. */
  function MessageCount(before: Tables, serverId: nat, m: MetricMessage, table: TableName): nat {
    |NewKeys(before.Get(table), MessageRows(serverId, m, table))|
  }

  ghost predicate CountsNewKeys(before: Tables, serverId: nat, m: MetricMessage, result: MetricInsertResult) {
    forall table: TableName :: result.Get(table) == MessageCount(before, serverId, m, table)
  }

  class SqlCollectRepository {
    var view: Store

    constructor (committed: Store)
      ensures view == committed
    {
      view := committed;
    }

    method FindServerId(agent: AgentId) returns (id: Option<nat>)
      ensures id.Some? <==> agent in view.servers
      ensures id.Some? ==> id.value == view.servers[agent].id
    {
      if agent in view.servers {
        id := Some(view.servers[agent].id);
      } else {
        id := None;
      }
    }

    /** Other transactions (`raced`) commit between the SELECT of the previous row and the upsert. */
    method UpsertServer(agent: AgentId, data: Inventory, raced: seq<Write>) returns (id: nat)
      modifies this
      ensures view == Apply(RunFrom(old(view), raced), InventoryWrite(agent, data, RowRead(old(view), agent)))
      ensures agent in view.servers && view.servers[agent].id == id
    {
      var prev := if agent in view.servers then Some(view.servers[agent].inventory) else None;
      view := RunFrom(view, raced);
      if agent in view.servers {
        id := view.servers[agent].id;
      } else {
        id := view.nextId;
        view := view.(nextId := view.nextId + 1);
      }
      view := view.(servers := view.servers[agent := ServerRow(id, data)]);
      if prev.None? || InventoryChanged(prev.value, data) {
        AppendInventoryHistory(id, data);
      }
    }

    method AppendInventoryHistory(id: nat, data: Inventory)
      modifies this
      ensures view == old(view).(history := AppendHistory(old(view).history, id, data))
    {
      if !HasHistory(view.history, id, data.collectedAt) {
        view := view.(history := view.history + [SnapshotOf(id, data)]);
      }
    }

    /** ON CONFLICT DO NOTHING: an existing row is left alone and no id comes back. */
    method InsertPlaceholderServer(agent: AgentId, data: Inventory) returns (id: Option<nat>)
      modifies this
      ensures view == EnsureServer(old(view), agent, data)
      ensures id.Some? <==> agent !in old(view).servers
      ensures id.Some? ==> id.value == view.servers[agent].id
    {
      if agent in view.servers {
        id := None;
      } else {
        id := Some(view.nextId);
        view := view.(servers := view.servers[agent := ServerRow(view.nextId, data)], nextId := view.nextId + 1);
      }
    }

    /** Finds or registers the agent although other transactions (`raced`) commit between the first
        SELECT and the INSERT.  The last SELECT always finds the row, so the call never gives up, and
        an inventory that wins the race is not overwritten by the placeholder. */
    method EnsureServerId(agent: AgentId, fallback: Inventory, raced: seq<Write>)
      returns (id: Option<nat>, created: bool)
      modifies this
      ensures view == EnsureServer(RunFrom(old(view), raced), agent, fallback)
      ensures id == Some(view.servers[agent].id)
      ensures created <==> agent !in RunFrom(old(view), raced).servers
    {
      id := FindServerId(agent);
      if id.Some? {
        RunKeepsServers(view, raced, agent);
      }
      view := RunFrom(view, raced);
      if id.Some? {
        return id, false;
      }
      id := InsertPlaceholderServer(agent, fallback);
      if id.Some? {
        return id, true;
      }
      id := FindServerId(agent);
      created := false;
    }

    /** One INSERT of the message's rows for one table; the row count is the number of new keys, which
        the database reports as the growth of the table. */
    method InsertChild(table: TableName, rows: seq<Row>) returns (count: nat)
      modifies this
      ensures view ==
        old(view).(tables := old(view).tables.With(table, InsertIgnore(old(view).tables.Get(table), rows)))
      ensures |view.tables.Get(table)| == |old(view).tables.Get(table)| + count
      ensures count == |NewKeys(old(view).tables.Get(table), rows)|
    {
      if rows == [] {
        return 0;
      }
      var before := view.tables.Get(table);
      var after := InsertIgnore(before, rows);
      InsertIgnoreAddsNewKeys(before, rows);
      view := view.(tables := view.tables.With(table, after));
      count := |after| - |before|;
    }

    method RecordMetrics(serverId: nat, m: MetricMessage) returns (result: MetricInsertResult)
      modifies this
      ensures view == old(view).(tables := CollectStore.RecordMetrics(old(view).tables, serverId, m))
      ensures CountsNewKeys(old(view).tables, serverId, m, result)
    {
      hide CollectStore.Keys, CollectStore.InsertIgnore, MetricsIngest.NewKeys;
      ghost var t, want := view.tables, CollectStore.RecordMetrics(view.tables, serverId, m);
      var metrics := InsertChild(Metrics, MessageRows(serverId, m, Metrics));
      var diskIo := InsertChild(DiskIo, MessageRows(serverId, m, DiskIo));
      assert view.tables == t.(metrics := want.metrics, diskIo := want.diskIo);
      var netIo := InsertChild(NetIo, MessageRows(serverId, m, NetIo));
      var filesystem := InsertChild(Filesystem, MessageRows(serverId, m, Filesystem));
      assert view.tables == want.(cpuCore := t.cpuCore, pressure := t.pressure, diskError := t.diskError);
      var cpuCore := InsertChild(CpuCore, MessageRows(serverId, m, CpuCore));
      var pressure := InsertChild(Pressure, MessageRows(serverId, m, Pressure));
      var diskError := InsertChild(DiskError, MessageRows(serverId, m, DiskError));
      result := MetricInsertResult(metrics, diskIo, netIo, filesystem, cpuCore, pressure, diskError);
    }
  }
}
