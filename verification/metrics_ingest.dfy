/** What the metric tables hold after any sequence of committed writes, in any order. */
module MetricsIngest {
  import opened Wrappers
  import opened CollectStore

  predicate KeysUnique(rows: seq<Row>) {
    forall i, j | 0 <= i < j < |rows| :: rows[i].key != rows[j].key
  }

  /** The first row of the key in arrival order: the independent reading of "first wins". */
  function FirstOf(rows: seq<Row>, key: NaturalKey): Row
    requires HasKey(rows, key)
  {
    if rows[0].key == key then rows[0] else
      assert rows == [rows[0]] + rows[1..];
      KeysOfConcat([rows[0]], rows[1..]);
      FirstOf(rows[1..], key)
  }

  /** One row per key, the keys that arrived, and for each key the row that arrived first. */
  predicate FirstWins(table: seq<Row>, arrivals: seq<Row>) {
    && KeysUnique(table)
    && Keys(table) == Keys(arrivals)
    && (forall k | 0 <= k < |table| :: table[k].key in Keys(arrivals) && table[k] == FirstOf(arrivals, table[k].key))
  }

  lemma {:induction false} FirstOfExtends(rows: seq<Row>, more: seq<Row>, key: NaturalKey)
    requires HasKey(rows, key)
    ensures HasKey(rows + more, key) && FirstOf(rows + more, key) == FirstOf(rows, key)
  {
    KeysOfConcat(rows, more);
    if rows[0].key != key {
      assert rows == [rows[0]] + rows[1..] && (rows + more)[1..] == rows[1..] + more;
      KeysOfConcat([rows[0]], rows[1..]);
      FirstOfExtends(rows[1..], more, key);
    }
  }

  lemma {:induction false} FirstOfNewKey(rows: seq<Row>, row: Row)
    requires !HasKey(rows, row.key)
    ensures HasKey(rows + [row], row.key) && FirstOf(rows + [row], row.key) == row
  {
    KeysOfConcat(rows, [row]);
    assert row.key in Keys([row]);
    if rows != [] {
      assert rows == [rows[0]] + rows[1..] && (rows + [row])[1..] == rows[1..] + [row];
      KeysOfConcat([rows[0]], rows[1..]);
      FirstOfNewKey(rows[1..], row);
    }
  }

  lemma OneArrival(table: seq<Row>, arrivals: seq<Row>, row: Row)
    requires FirstWins(table, arrivals)
    ensures FirstWins(if HasKey(table, row.key) then table else table + [row], arrivals + [row])
  {
    var next := if HasKey(table, row.key) then table else table + [row];
    KeysOfConcat(arrivals, [row]);
    KeysOfConcat(table, [row]);
    assert Keys([row]) == {row.key};
    hide FirstOf, CollectStore.Keys;
    forall k | 0 <= k < |next|
      ensures next[k].key in Keys(arrivals + [row]) && next[k] == FirstOf(arrivals + [row], next[k].key)
    {
      if k < |table| {
        FirstOfExtends(arrivals, [row], table[k].key);
      } else {
        FirstOfNewKey(arrivals, row);
      }
    }
    assert KeysUnique(next) by {
      forall i, j | 0 <= i < j < |next| ensures next[i].key != next[j].key {
        if j == |table| { KeyIsIn(table, i); }
      }
    }
  }

  lemma {:induction false} InsertIgnoreIsFirstWins(table: seq<Row>, arrivals: seq<Row>, new_: seq<Row>)
    requires FirstWins(table, arrivals)
    ensures FirstWins(InsertIgnore(table, new_), arrivals + new_)
    decreases new_
  {
    if new_ == [] {
      assert arrivals + new_ == arrivals;
    } else {
      assert arrivals + [new_[0]] + new_[1..] == arrivals + new_;
      OneArrival(table, arrivals, new_[0]);
      var next := if HasKey(table, new_[0].key) then table else table + [new_[0]];
      InsertIgnoreIsFirstWins(next, arrivals + [new_[0]], new_[1..]);
    }
  }

  // ---------------------------------------------------------------- whole runs

  /** All rows the committed metrics writes carried for one table, in commit order. */
  function Arrivals(ws: seq<Write>, table: TableName): seq<Row> {
    if ws == [] then [] else
      Arrivals(ws[..|ws| - 1], table) + LastRows(ws, table)
  }

  function LastRows(ws: seq<Write>, table: TableName): seq<Row>
    requires ws != []
  {
    var w := ws[|ws| - 1];
    if w.MetricsWrite? && w.agent in After(ws).servers
    then MessageRows(After(ws).servers[w.agent].id, w.message, table) else []
  }

  /** Each table is the first-wins table of everything that was committed, one row per natural key. */
  lemma {:induction false} TablesAreFirstWins(ws: seq<Write>, table: TableName)
    ensures FirstWins(After(ws).tables.Get(table), Arrivals(ws, table))
  {
    if ws != [] {
      var prior, w := ws[..|ws| - 1], ws[|ws| - 1];
      TablesAreFirstWins(prior, table);
      var s := After(prior);
      if w.MetricsWrite? {
        var id := After(ws).servers[w.agent].id;
        RecordsPerTable(s.tables, id, w.message, table);
        InsertIgnoreIsFirstWins(s.tables.Get(table), Arrivals(prior, table), MessageRows(id, w.message, table));
      } else {
        assert Arrivals(ws, table) == Arrivals(prior, table);
      }
    }
  }

  /** The keys a statement brings that the table lacks. */
  function NewKeys(rows: seq<Row>, new_: seq<Row>): set<NaturalKey> {
    Keys(new_) - Keys(rows)
  }

  /** An INSERT adds one row per new key, however often the statement repeats it. */
  lemma {:induction false} InsertIgnoreAddsNewKeys(rows: seq<Row>, new_: seq<Row>)
    ensures |InsertIgnore(rows, new_)| == |rows| + |NewKeys(rows, new_)|
    decreases new_
  {
    if new_ != [] {
      var key, rest := new_[0].key, new_[1..];
      var next := if HasKey(rows, key) then rows else rows + [new_[0]];
      assert new_ == [new_[0]] + rest;
      KeysOfConcat([new_[0]], rest);
      KeysOfConcat(rows, [new_[0]]);
      assert Keys([new_[0]]) == {key};
      InsertIgnoreAddsNewKeys(next, rest);
      if HasKey(rows, key) {
        assert NewKeys(rows, new_) == NewKeys(next, rest);
      } else {
        assert NewKeys(rows, new_) == NewKeys(next, rest) + {key};
      }
    }
  }

  /** rowcount of one table's INSERT within the write: the new keys of the message. */
  function RowCount(s: Store, w: Write, table: TableName): nat {
    if w.MetricsWrite?
      then |NewKeys(s.tables.Get(table), MessageRows(Apply(s, w).servers[w.agent].id, w.message, table))|
    else 0
  }

  function SumOfRowCounts(ws: seq<Write>, table: TableName): nat {
    if ws == [] then 0
    else SumOfRowCounts(ws[..|ws| - 1], table) + RowCount(After(ws[..|ws| - 1]), ws[|ws| - 1], table)
  }

  /** One write adds its row count to the table and to the keys that ever arrived. */
  lemma OneWriteCounts(ws: seq<Write>, table: TableName)
    requires ws != []
    ensures var prior, count := ws[..|ws| - 1], RowCount(After(ws[..|ws| - 1]), ws[|ws| - 1], table);
      && |After(ws).tables.Get(table)| == |After(prior).tables.Get(table)| + count
      && |Keys(Arrivals(ws, table))| == |Keys(Arrivals(prior, table))| + count
  {
    var prior, w := ws[..|ws| - 1], ws[|ws| - 1];
    if w.MetricsWrite? {
      var s, id := After(prior), After(ws).servers[w.agent].id;
      var rows := MessageRows(id, w.message, table);
      RecordsPerTable(s.tables, id, w.message, table);
      InsertIgnoreAddsNewKeys(s.tables.Get(table), rows);
      TablesAreFirstWins(prior, table);
      NewKeysExtend(Arrivals(prior, table), rows, s.tables.Get(table));
    } else {
      assert Arrivals(ws, table) == Arrivals(prior, table);
    }
  }

  lemma NewKeysExtend(arrivals: seq<Row>, rows: seq<Row>, stored: seq<Row>)
    requires Keys(stored) == Keys(arrivals)
    ensures |Keys(arrivals + rows)| == |Keys(arrivals)| + |NewKeys(stored, rows)|
  {
    KeysOfConcat(arrivals, rows);
    assert Keys(arrivals + rows) == Keys(arrivals) + NewKeys(stored, rows);
  }

  /** Counting new keys write by write counts every key that ever arrived once, and every stored row. */
  lemma {:induction false} RowCountsAddUp(ws: seq<Write>, table: TableName)
    ensures SumOfRowCounts(ws, table) == |Keys(Arrivals(ws, table))|
    ensures SumOfRowCounts(ws, table) == |After(ws).tables.Get(table)|
  {
    if ws != [] {
      RowCountsAddUp(ws[..|ws| - 1], table);
      OneWriteCounts(ws, table);
    }
  }

  /** An absent member and an empty one are one natural key. */
  lemma AbsentMemberIsEmptyMember(serverId: nat, e: DiskErrorEntry, f: DiskErrorEntry, at: int)
    requires e.member.None? && f.member == Some("")
    ensures DiskErrorRow(serverId, e, at).key == DiskErrorRow(serverId, f, at).key
       <==> e.deviceId == f.deviceId && e.errorKind == f.errorKind && e.errorClass == f.errorClass
  {
  }

  // ---------------------------------------------------------------- applying a write twice

  /** The write has already taken effect and nothing newer replaced it. */
  predicate Absorbed(s: Store, w: Write) {
    w.agent in s.servers &&
    match w
    case InventoryWrite(agent, inventory, read) =>
      && s.servers[agent].inventory == inventory
      && (Records(read, inventory) ==> HasHistory(s.history, s.servers[agent].id, inventory.collectedAt))
    case MetricsWrite(agent, _, message) =>
      forall table: TableName ::
        Keys(MessageRows(s.servers[agent].id, message, table)) <= Keys(s.tables.Get(table))
  }

  lemma {:induction false} InsertIgnoreOfKnown(rows: seq<Row>, new_: seq<Row>)
    requires Keys(new_) <= Keys(rows)
    ensures InsertIgnore(rows, new_) == rows
    decreases new_
  {
    if new_ != [] {
      assert new_ == [new_[0]] + new_[1..];
      KeysOfConcat([new_[0]], new_[1..]);
      KeyIsIn(new_, 0);
      InsertIgnoreOfKnown(rows, new_[1..]);
    }
  }

  lemma {:induction false} InsertIgnoreKeys(rows: seq<Row>, new_: seq<Row>)
    ensures Keys(InsertIgnore(rows, new_)) == Keys(rows) + Keys(new_)
    ensures |rows| <= |InsertIgnore(rows, new_)|
    decreases new_
  {
    if new_ != [] {
      assert new_ == [new_[0]] + new_[1..];
      KeysOfConcat([new_[0]], new_[1..]);
      KeysOfConcat(rows, [new_[0]]);
      assert Keys([new_[0]]) == {new_[0].key};
      InsertIgnoreKeys(if HasKey(rows, new_[0].key) then rows else rows + [new_[0]], new_[1..]);
    }
  }

  lemma ApplyGrowsTables(s: Store, w: Write, table: TableName)
    ensures Keys(s.tables.Get(table)) <= Keys(Apply(s, w).tables.Get(table))
    ensures w.MetricsWrite? ==>
      Keys(MessageRows(Apply(s, w).servers[w.agent].id, w.message, table)) <= Keys(Apply(s, w).tables.Get(table))
  {
    if w.MetricsWrite? {
      var id := Apply(s, w).servers[w.agent].id;
      RecordsPerTable(s.tables, id, w.message, table);
      InsertIgnoreKeys(s.tables.Get(table), MessageRows(id, w.message, table));
    }
  }

  lemma ApplyAbsorbs(s: Store, w: Write)
    ensures Absorbed(Apply(s, w), w)
  {
    forall table: TableName { ApplyGrowsTables(s, w, table); }
    if w.InventoryWrite? && Records(w.read, w.inventory) {
      var id := Apply(s, w).servers[w.agent].id;
      var history := AppendHistory(s.history, id, w.inventory);
      assert history != s.history ==> history[|history| - 1] == SnapshotOf(id, w.inventory);
    }
  }

  /** Applying an absorbed write changes nothing: no row, no id, no history. */
  lemma AbsorbedIsNoOp(s: Store, w: Write)
    requires Absorbed(s, w)
    ensures Apply(s, w) == s
  {
    match w
    case InventoryWrite(agent, inventory, _) =>
      assert s.servers[agent := ServerRow(s.servers[agent].id, inventory)] == s.servers;
    case MetricsWrite(agent, _, message) =>
      var id := s.servers[agent].id;
      forall table: TableName
        ensures InsertIgnore(s.tables.Get(table), MessageRows(id, message, table)) == s.tables.Get(table)
      {
        InsertIgnoreOfKnown(s.tables.Get(table), MessageRows(id, message, table));
      }
      assert s.tables.Get(Metrics) == s.tables.metrics && s.tables.Get(DiskIo) == s.tables.diskIo;
      assert s.tables.Get(NetIo) == s.tables.netIo && s.tables.Get(Filesystem) == s.tables.filesystem;
      assert s.tables.Get(CpuCore) == s.tables.cpuCore && s.tables.Get(Pressure) == s.tables.pressure;
      assert s.tables.Get(DiskError) == s.tables.diskError;
  }

  /** Applying a write changes nothing exactly when it is in effect already. */
  lemma NoOpIff(s: Store, w: Write)
    ensures Apply(s, w) == s <==> Absorbed(s, w)
  {
    ApplyAbsorbs(s, w);
    if Absorbed(s, w) {
      AbsorbedIsNoOp(s, w);
    }
  }

  /** Everything but another inventory of the same agent leaves an absorbed write absorbed. */
  predicate Harmless(w: Write, other: Write) {
    w.InventoryWrite? && other.InventoryWrite? ==> w.agent != other.agent
  }

  lemma HistoryOnlyGrows(s: Store, w: Write, serverId: nat, at: int)
    requires HasHistory(s.history, serverId, at)
    ensures HasHistory(Apply(s, w).history, serverId, at)
  {
    var k :| 0 <= k < |s.history| && s.history[k].serverId == serverId && s.history[k].collectedAt == at;
    assert Apply(s, w).history[k] == s.history[k];
  }

  lemma StaysAbsorbed(s: Store, w: Write, other: Write)
    requires Absorbed(s, w) && Harmless(w, other)
    ensures Absorbed(Apply(s, other), w)
  {
    ServerIdIsStable(s, other, w.agent);
    forall table: TableName { ApplyGrowsTables(s, other, table); }
    if w.InventoryWrite? && HasHistory(s.history, s.servers[w.agent].id, w.inventory.collectedAt) {
      HistoryOnlyGrows(s, other, s.servers[w.agent].id, w.inventory.collectedAt);
    }
  }
}
