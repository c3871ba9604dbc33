/**
 The tables the consumer writes: `server_inventory` with its change history, and the seven metric
 tables with their natural-key UNIQUE constraints.  A `Write` is one committed transaction; that of an
 inventory carries the row its SELECT read, which any other commit may have replaced since.
 */
module CollectStore {
  import opened Wrappers

  type AgentId = string

  // ---------------------------------------------------------------- inventory

  /** The compared columns, in SELECT order, without boot_time (which is compared with a tolerance). */
  const COMPARED_COLUMNS: seq<string> := [
    "agent_version", "os_family", "os_id", "os_version", "os_codename", "kernel_version", "arch", "bits",
    "boot_firmware", "secure_boot", "edition", "product_name", "timezone", "rtc_utc", "cpu_cores", "cpu_model",
    "mem_total_bytes", "agent_started_at", "block_devices", "net_interfaces", "lvm_vgs", "boot",
    "nonblock_mounts", "ip_external", "services", "listen_ports"]

  /** One value per compared column; None is SQL NULL. */
  type Columns = c: seq<Option<string>> | |c| == |COMPARED_COLUMNS|
    witness seq(|COMPARED_COLUMNS|, _ => None)

  datatype Inventory = Inventory(
    hostname: string,
    compositeId: Option<string>,
    machineId: Option<string>,
    serviceCategories: seq<string>,
    columns: Columns,
    bootTime: Option<int>,
    collectedAt: int)

  datatype ServerRow = ServerRow(id: nat, inventory: Inventory)

  datatype HistoryRow = HistoryRow(
    serverId: nat, collectedAt: int, hostname: string, columns: Columns, bootTime: Option<int>)

  /** Five seconds, in microseconds. */
  const BOOT_TIME_JITTER_TOLERANCE: int := 5_000_000

  function Distance(a: int, b: int): nat {
    if a < b then b - a else a - b
  }

  predicate BootTimeChanged(prev: Option<int>, new_: Option<int>) {
    if prev.None? && new_.None? then false
    else if prev.None? || new_.None? then true
    else Distance(prev.value, new_.value) > BOOT_TIME_JITTER_TOLERANCE
  }

  predicate InventoryChanged(prev: Inventory, new_: Inventory) {
    || (exists k | 0 <= k < |COMPARED_COLUMNS| :: prev.columns[k] != new_.columns[k])
    || BootTimeChanged(prev.bootTime, new_.bootTime)
  }

  // ---------------------------------------------------------------- metrics

  datatype TableName = Metrics | DiskIo | NetIo | Filesystem | CpuCore | Pressure | DiskError

  datatype NaturalKey =
    | MetricsKey(serverId: nat, collectedAt: int)
    | DiskIoKey(serverId: nat, deviceId: string, collectedAt: int)
    | NetIoKey(serverId: nat, ifaceId: string, collectedAt: int)
    | FilesystemKey(serverId: nat, mountpoint: string, collectedAt: int)
    | CpuCoreKey(serverId: nat, coreId: int, collectedAt: int)
    | PressureKey(serverId: nat, resource: string, scope: string, collectedAt: int)
    | DiskErrorKey(serverId: nat, deviceId: string, errorKind: string, errorClass: string, member: string,
        collectedAt: int)

  /** `values` are the columns outside the natural key. */
  datatype Row = Row(key: NaturalKey, values: string)

  datatype DiskIoEntry = DiskIoEntry(deviceId: string, values: string)
  datatype NetIoEntry = NetIoEntry(ifaceId: string, values: string)
  datatype FilesystemEntry = FilesystemEntry(mountpoint: string, values: string)
  datatype CpuCoreEntry = CpuCoreEntry(coreId: int, values: string)
  datatype PressureEntry = PressureEntry(resource: string, scope: string, values: string)
  datatype DiskErrorEntry = DiskErrorEntry(
    deviceId: string, errorKind: string, errorClass: string, member: Option<string>, values: string)

  datatype MetricMessage = MetricMessage(
    collectedAt: int,
    scalars: string,
    diskIo: seq<DiskIoEntry>,
    netIo: seq<NetIoEntry>,
    filesystems: seq<FilesystemEntry>,
    cpuPerCore: seq<CpuCoreEntry>,
    pressure: seq<PressureEntry>,
    diskErrors: seq<DiskErrorEntry>)

  /** A UNIQUE column cannot hold NULL: an absent member is stored as ''. */
  function MemberOrEmpty(member: Option<string>): string {
    if member.Some? then member.value else ""
  }

  function DiskErrorRow(serverId: nat, e: DiskErrorEntry, at: int): Row {
    Row(DiskErrorKey(serverId, e.deviceId, e.errorKind, e.errorClass, MemberOrEmpty(e.member), at), e.values)
  }

  /** The rows one message carries for one table, in the order of the INSERT. */
  function MessageRows(serverId: nat, m: MetricMessage, table: TableName): seq<Row> {
    var at := m.collectedAt;
    match table
    case Metrics => [Row(MetricsKey(serverId, at), m.scalars)]
    case DiskIo => seq(|m.diskIo|, i requires 0 <= i < |m.diskIo| =>
        Row(DiskIoKey(serverId, m.diskIo[i].deviceId, at), m.diskIo[i].values))
    case NetIo => seq(|m.netIo|, i requires 0 <= i < |m.netIo| =>
        Row(NetIoKey(serverId, m.netIo[i].ifaceId, at), m.netIo[i].values))
    case Filesystem => seq(|m.filesystems|, i requires 0 <= i < |m.filesystems| =>
        Row(FilesystemKey(serverId, m.filesystems[i].mountpoint, at), m.filesystems[i].values))
    case CpuCore => seq(|m.cpuPerCore|, i requires 0 <= i < |m.cpuPerCore| =>
        Row(CpuCoreKey(serverId, m.cpuPerCore[i].coreId, at), m.cpuPerCore[i].values))
    case Pressure => seq(|m.pressure|, i requires 0 <= i < |m.pressure| =>
        Row(PressureKey(serverId, m.pressure[i].resource, m.pressure[i].scope, at), m.pressure[i].values))
    case DiskError =>
      seq(|m.diskErrors|, i requires 0 <= i < |m.diskErrors| => DiskErrorRow(serverId, m.diskErrors[i], at))
  }

  datatype Tables = Tables(
    metrics: seq<Row>, diskIo: seq<Row>, netIo: seq<Row>, filesystem: seq<Row>,
    cpuCore: seq<Row>, pressure: seq<Row>, diskError: seq<Row>)
  {
    function Get(table: TableName): seq<Row> {
      match table
      case Metrics => metrics
      case DiskIo => diskIo
      case NetIo => netIo
      case Filesystem => filesystem
      case CpuCore => cpuCore
      case Pressure => pressure
      case DiskError => diskError
    }

    function With(table: TableName, rows: seq<Row>): Tables {
      match table
      case Metrics => this.(metrics := rows)
      case DiskIo => this.(diskIo := rows)
      case NetIo => this.(netIo := rows)
      case Filesystem => this.(filesystem := rows)
      case CpuCore => this.(cpuCore := rows)
      case Pressure => this.(pressure := rows)
      case DiskError => this.(diskError := rows)
    }
  }

  const NoRows := Tables([], [], [], [], [], [], [])

  function Keys(rows: seq<Row>): set<NaturalKey> {
    if rows == [] then {} else Keys(rows[..|rows| - 1]) + {rows[|rows| - 1].key}
  }

  predicate HasKey(rows: seq<Row>, key: NaturalKey) {
    key in Keys(rows)
  }

  lemma {:induction false} KeysOfConcat(a: seq<Row>, b: seq<Row>)
    ensures Keys(a + b) == Keys(a) + Keys(b)
  {
    if b == [] {
      assert a + b == a;
    } else {
      assert (a + b)[..|a + b| - 1] == a + b[..|b| - 1];
      KeysOfConcat(a, b[..|b| - 1]);
    }
  }

  lemma {:induction false} KeyIsIn(rows: seq<Row>, k: nat)
    requires k < |rows|
    ensures rows[k].key in Keys(rows)
  {
    if k < |rows| - 1 {
      KeyIsIn(rows[..|rows| - 1], k);
    }
  }

  /** A multi-row INSERT ... ON CONFLICT DO NOTHING. */
  function InsertIgnore(rows: seq<Row>, new_: seq<Row>): seq<Row>
    decreases new_
  {
    if new_ == [] then rows
    else InsertIgnore(if HasKey(rows, new_[0].key) then rows else rows + [new_[0]], new_[1..])
  }

  function RecordMetrics(t: Tables, serverId: nat, m: MetricMessage): Tables {
    Tables(
      InsertIgnore(t.metrics, MessageRows(serverId, m, Metrics)),
      InsertIgnore(t.diskIo, MessageRows(serverId, m, DiskIo)),
      InsertIgnore(t.netIo, MessageRows(serverId, m, NetIo)),
      InsertIgnore(t.filesystem, MessageRows(serverId, m, Filesystem)),
      InsertIgnore(t.cpuCore, MessageRows(serverId, m, CpuCore)),
      InsertIgnore(t.pressure, MessageRows(serverId, m, Pressure)),
      InsertIgnore(t.diskError, MessageRows(serverId, m, DiskError)))
  }

  // ---------------------------------------------------------------- the store

  datatype Store = Store(
    servers: map<AgentId, ServerRow>, nextId: nat, history: seq<HistoryRow>, tables: Tables)

  const EmptyStore := Store(map[], 0, [], NoRows)

  predicate HasHistory(history: seq<HistoryRow>, serverId: nat, collectedAt: int) {
    exists k | 0 <= k < |history| :: history[k].serverId == serverId && history[k].collectedAt == collectedAt
  }

  function SnapshotOf(serverId: nat, data: Inventory): HistoryRow {
    HistoryRow(serverId, data.collectedAt, data.hostname, data.columns, data.bootTime)
  }

  /** INSERT the snapshot unless the server already has one of that instant. */
  function AppendHistory(history: seq<HistoryRow>, serverId: nat, data: Inventory): seq<HistoryRow> {
    if HasHistory(history, serverId, data.collectedAt) then history
    else history + [SnapshotOf(serverId, data)]
  }

  /** What a SELECT of the agent's row finds. */
  function RowRead(s: Store, agent: AgentId): Option<Inventory> {
    if agent in s.servers then Some(s.servers[agent].inventory) else None
  }

  /** The inventory is compared with what the transaction read, not with the row it overwrites. */
  predicate Records(read: Option<Inventory>, data: Inventory) {
    read.None? || InventoryChanged(read.value, data)
  }

  /** The upsert and its history row; other transactions may have committed since `read` was read. */
  function UpsertServer(s: Store, agent: AgentId, data: Inventory, read: Option<Inventory>): Store {
    var id := if agent in s.servers then s.servers[agent].id else s.nextId;
    s.(servers := s.servers[agent := ServerRow(id, data)],
       nextId := if agent in s.servers then s.nextId else s.nextId + 1,
       history := if Records(read, data) then AppendHistory(s.history, id, data) else s.history)
  }

  /** A known agent is left as it is; an unknown one gets the placeholder row, without history. */
  function EnsureServer(s: Store, agent: AgentId, placeholder: Inventory): Store {
    if agent in s.servers then s
    else s.(servers := s.servers[agent := ServerRow(s.nextId, placeholder)], nextId := s.nextId + 1)
  }

  datatype Write =
    | MetricsWrite(agent: AgentId, placeholder: Inventory, message: MetricMessage)
    | InventoryWrite(agent: AgentId, inventory: Inventory, read: Option<Inventory>)

  /** The same message stored by a transaction that read something else. */
  function ReadAs(w: Write, read: Option<Inventory>): Write {
    if w.InventoryWrite? then w.(read := read) else w
  }

  function Apply(s: Store, w: Write): Store {
    match w
    case MetricsWrite(agent, placeholder, message) =>
      var ensured := EnsureServer(s, agent, placeholder);
      ensured.(tables := RecordMetrics(s.tables, ensured.servers[agent].id, message))
    case InventoryWrite(agent, inventory, read) =>
      UpsertServer(s, agent, inventory, read)
  }

  /** What an inventory leaves behind: its agent's row under the id it had or the next free one, and a
      snapshot in the history if something differs from what was read (boot_time by more than five seconds)
      and that server has no snapshot of the instant. */
  lemma InventoryLeaves(s: Store, agent: AgentId, data: Inventory, read: Option<Inventory>)
    ensures var t := Apply(s, InventoryWrite(agent, data, read));
      && t.tables == s.tables
      && t.servers.Keys == s.servers.Keys + {agent}
      && t.servers[agent].inventory == data
      && t.servers[agent].id == (if agent in s.servers then s.servers[agent].id else s.nextId)
      && t.nextId == s.nextId + (if agent in s.servers then 0 else 1)
      && (forall other | other in s.servers && other != agent :: t.servers[other] == s.servers[other])
      && (t.history == s.history || t.history == s.history
            + [HistoryRow(t.servers[agent].id, data.collectedAt, data.hostname, data.columns, data.bootTime)])
      && (t.history != s.history <==>
            && (read.None? || read.value.columns != data.columns
                || (read.value.bootTime.Some? <==> data.bootTime.None?)
                || (data.bootTime.Some? && (read.value.bootTime.value + 5_000_000 < data.bootTime.value
                                            || data.bootTime.value + 5_000_000 < read.value.bootTime.value)))
            && forall row | row in s.history ::
                 !(row.serverId == t.servers[agent].id && row.collectedAt == data.collectedAt))
  {
    if read.Some? && forall k | 0 <= k < |COMPARED_COLUMNS| :: read.value.columns[k] == data.columns[k] {
      assert read.value.columns == data.columns;
    }
    var t := Apply(s, InventoryWrite(agent, data, read));
    assert |t.history| == |s.history| ==> t.history == s.history;
  }

  /** What a metrics message leaves behind outside its tables: an unknown agent gets the placeholder row. */
  lemma MetricsLeave(s: Store, agent: AgentId, placeholder: Inventory, m: MetricMessage)
    ensures var t := Apply(s, MetricsWrite(agent, placeholder, m));
      && t.history == s.history
      && t.servers == (if agent in s.servers then s.servers
                       else s.servers[agent := ServerRow(s.nextId, placeholder)])
      && t.nextId == s.nextId + (if agent in s.servers then 0 else 1)
      && forall table: TableName :: t.tables.Get(table) ==
           InsertIgnore(s.tables.Get(table), MessageRows(t.servers[agent].id, m, table))
  {
    var t := Apply(s, MetricsWrite(agent, placeholder, m));
    forall table: TableName
      ensures t.tables.Get(table) == InsertIgnore(s.tables.Get(table), MessageRows(t.servers[agent].id, m, table))
    {
      RecordsPerTable(s.tables, t.servers[agent].id, m, table);
    }
  }

  /** The store after a sequence of committed transactions. */
  function RunFrom(s: Store, ws: seq<Write>): Store {
    if ws == [] then s else Apply(RunFrom(s, ws[..|ws| - 1]), ws[|ws| - 1])
  }

  function After(ws: seq<Write>): Store {
    RunFrom(EmptyStore, ws)
  }

  lemma RunFromSnoc(s: Store, ws: seq<Write>, w: Write)
    ensures RunFrom(s, ws + [w]) == Apply(RunFrom(s, ws), w)
  {
    assert (ws + [w])[..|ws|] == ws;
  }

  lemma {:induction false} RunFromConcat(s: Store, a: seq<Write>, b: seq<Write>)
    ensures RunFrom(s, a + b) == RunFrom(RunFrom(s, a), b)
  {
    if b == [] {
      assert a + b == a;
    } else {
      assert (a + b)[..|a + b| - 1] == a + b[..|b| - 1];
      RunFromConcat(s, a, b[..|b| - 1]);
    }
  }

  lemma RecordsPerTable(t: Tables, serverId: nat, m: MetricMessage, table: TableName)
    ensures RecordMetrics(t, serverId, m).Get(table) == InsertIgnore(t.Get(table), MessageRows(serverId, m, table))
  {
  }

  /** A registered agent keeps its server id forever. */
  lemma ServerIdIsStable(s: Store, w: Write, agent: AgentId)
    requires agent in s.servers
    ensures agent in Apply(s, w).servers && Apply(s, w).servers[agent].id == s.servers[agent].id
  {
  }

  /** No server row is ever removed or renumbered. */
  lemma {:induction false} RunKeepsServers(s: Store, ws: seq<Write>, agent: AgentId)
    requires agent in s.servers
    ensures agent in RunFrom(s, ws).servers && RunFrom(s, ws).servers[agent].id == s.servers[agent].id
  {
    if ws != [] {
      RunKeepsServers(s, ws[..|ws| - 1], agent);
      ServerIdIsStable(RunFrom(s, ws[..|ws| - 1]), ws[|ws| - 1], agent);
    }
  }

  predicate IdsDistinct(s: Store) {
    && (forall a | a in s.servers :: s.servers[a].id < s.nextId)
    && (forall a, b | a in s.servers && b in s.servers :: s.servers[a].id == s.servers[b].id ==> a == b)
    && (forall k | 0 <= k < |s.history| :: s.history[k].serverId < s.nextId)
  }

  lemma {:induction false} ServerIdsAreDistinct(ws: seq<Write>)
    ensures IdsDistinct(After(ws))
  {
    if ws != [] {
      ServerIdsAreDistinct(ws[..|ws| - 1]);
    }
  }
}
