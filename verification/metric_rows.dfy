/** The rows a metrics message becomes, in the message's own fields: what identifies an entry of each table. */
module MetricRows {
  import opened Wrappers
  import opened CollectStore
  import opened MetricsIngest

  /** What tells the entries of one message for one table apart. */
  datatype Identity =
    | WholeHost
    | Named(name: string)
    | Numbered(number: int)
    | Pressured(resource: string, scope: string)
    | Faulty(device: string, kind: string, class_: string, member: string)

  /** The entries of the message for the table: what identifies them, and the other columns. */
  function EntriesOf(m: MetricMessage, table: TableName): seq<(Identity, string)> {
    match table
    case Metrics => [(WholeHost, m.scalars)]
    case DiskIo => seq(|m.diskIo|, i requires 0 <= i < |m.diskIo| => (Named(m.diskIo[i].deviceId), m.diskIo[i].values))
    case NetIo => seq(|m.netIo|, i requires 0 <= i < |m.netIo| => (Named(m.netIo[i].ifaceId), m.netIo[i].values))
    case Filesystem => seq(|m.filesystems|, i requires 0 <= i < |m.filesystems| =>
        (Named(m.filesystems[i].mountpoint), m.filesystems[i].values))
    case CpuCore => seq(|m.cpuPerCore|, i requires 0 <= i < |m.cpuPerCore| =>
        (Numbered(m.cpuPerCore[i].coreId), m.cpuPerCore[i].values))
    case Pressure => seq(|m.pressure|, i requires 0 <= i < |m.pressure| =>
        (Pressured(m.pressure[i].resource, m.pressure[i].scope), m.pressure[i].values))
    case DiskError =>
      seq(|m.diskErrors|, i requires 0 <= i < |m.diskErrors| => (FaultOf(m.diskErrors[i]), m.diskErrors[i].values))
  }

  /** No member and an empty one are the same. */
  function FaultOf(e: DiskErrorEntry): Identity {
    Faulty(e.deviceId, e.errorKind, e.errorClass, if e.member == None then "" else e.member.value)
  }

  /** One row per entry, in order, with that entry's columns, of the server and the instant. */
  lemma RowsAreEntries(serverId: nat, m: MetricMessage, table: TableName)
    ensures |MessageRows(serverId, m, table)| == |EntriesOf(m, table)|
    ensures forall i | 0 <= i < |EntriesOf(m, table)| ::
      var row := MessageRows(serverId, m, table)[i];
      row.values == EntriesOf(m, table)[i].1 && row.key.serverId == serverId && row.key.collectedAt == m.collectedAt
  {
  }

  /** Two rows of a table, of one message or of two, share a natural key exactly when they are of the same
      server and instant and their entries have the same identity. */
  lemma KeysAgreeIff(a: nat, m: MetricMessage, b: nat, n: MetricMessage, table: TableName, i: nat, j: nat)
    requires i < |EntriesOf(m, table)| && j < |EntriesOf(n, table)|
    ensures |MessageRows(a, m, table)| == |EntriesOf(m, table)| && |MessageRows(b, n, table)| == |EntriesOf(n, table)|
    ensures MessageRows(a, m, table)[i].key == MessageRows(b, n, table)[j].key <==>
      a == b && m.collectedAt == n.collectedAt && EntriesOf(m, table)[i].0 == EntriesOf(n, table)[j].0
  {
  }

  function Identities(entries: seq<(Identity, string)>): set<Identity> {
    if entries == [] then {} else Identities(entries[..|entries| - 1]) + {entries[|entries| - 1].0}
  }

  lemma {:induction false} IdentityIn(entries: seq<(Identity, string)>, id: Identity)
    ensures id in Identities(entries) <==> exists i :: 0 <= i < |entries| && entries[i].0 == id
  {
    if entries != [] {
      var prior := entries[..|entries| - 1];
      IdentityIn(prior, id);
      if i :| 0 <= i < |prior| && prior[i].0 == id {
        assert entries[i].0 == id;
      }
    }
  }

  lemma {:induction false} KeyIn(rows: seq<Row>, key: NaturalKey)
    ensures key in Keys(rows) <==> exists i :: 0 <= i < |rows| && rows[i].key == key
  {
    if rows != [] {
      var prior := rows[..|rows| - 1];
      KeyIn(prior, key);
      if i :| 0 <= i < |prior| && prior[i].key == key {
        assert rows[i].key == key;
      }
    }
  }

  /** Keys that agree exactly when identities do are as many. */
  lemma {:induction false} AsManyKeys(rows: seq<Row>, entries: seq<(Identity, string)>)
    requires |rows| == |entries|
    requires forall i, j | 0 <= i < |rows| && 0 <= j < |rows| ::
      rows[i].key == rows[j].key <==> entries[i].0 == entries[j].0
    ensures |Keys(rows)| == |Identities(entries)|
  {
    if rows != [] {
      var n := |rows| - 1;
      AsManyKeys(rows[..n], entries[..n]);
      SameNovelty(rows, entries, n);
      if rows[n].key in Keys(rows[..n]) {
        assert Keys(rows) == Keys(rows[..n]) && Identities(entries) == Identities(entries[..n]);
      } else {
        assert |Keys(rows)| == |Keys(rows[..n])| + 1;
        assert |Identities(entries)| == |Identities(entries[..n])| + 1;
      }
    }
  }

  /** The last key is new exactly when the last identity is. */
  lemma SameNovelty(rows: seq<Row>, entries: seq<(Identity, string)>, n: nat)
    requires n < |rows| == |entries|
    requires forall i | 0 <= i < n :: rows[i].key == rows[n].key <==> entries[i].0 == entries[n].0
    ensures rows[n].key in Keys(rows[..n]) <==> entries[n].0 in Identities(entries[..n])
  {
    KeyIn(rows[..n], rows[n].key);
    IdentityIn(entries[..n], entries[n].0);
    hide Keys, Identities;
    if i :| 0 <= i < n && rows[..n][i].key == rows[n].key {
      assert entries[..n][i].0 == entries[n].0;
    }
    if i :| 0 <= i < n && entries[..n][i].0 == entries[n].0 {
      assert rows[..n][i].key == rows[n].key;
    }
  }

  /** A message of a new instant adds as many rows to a table as its entries have identities: a repeated
      device counts once, and no two devices are taken for one. */
  lemma NewInstantAddsEveryEntry(rows: seq<Row>, serverId: nat, m: MetricMessage, table: TableName)
    requires forall i | 0 <= i < |rows| :: rows[i].key.serverId != serverId || rows[i].key.collectedAt != m.collectedAt
    ensures |NewKeys(rows, MessageRows(serverId, m, table))| == |Identities(EntriesOf(m, table))|
    ensures |InsertIgnore(rows, MessageRows(serverId, m, table))| == |rows| + |Identities(EntriesOf(m, table))|
  {
    hide MessageRows, EntriesOf;
    var new_ := MessageRows(serverId, m, table);
    RowsAreEntries(serverId, m, table);
    InsertIgnoreAddsNewKeys(rows, new_);
    forall key | key in Keys(new_) ensures key !in Keys(rows) {
      KeyIn(new_, key);
      KeyIn(rows, key);
    }
    assert NewKeys(rows, new_) == Keys(new_);
    forall i, j | 0 <= i < |new_| && 0 <= j < |new_|
      ensures new_[i].key == new_[j].key <==> EntriesOf(m, table)[i].0 == EntriesOf(m, table)[j].0
    {
      KeysAgreeIff(serverId, m, serverId, m, table, i, j);
    }
    AsManyKeys(new_, EntriesOf(m, table));
  }
}
