/** The relational store behind PgClient: its tables as maps keyed by their
    unique columns, its id sequences, and the meaning of each SQL statement. */
module Store {
  import opened Options

  /** Largest value a BIGINT parameter takes; a larger one makes the statement fail. */
  const MAX_BIGINT: nat := 0x7FFF_FFFF_FFFF_FFFF

  /** The columns of a partition that the client supplies. */
  datatype PartitionData = PartitionData(
    key: string, path: string, format: string, rowCount: int, sizeBytes: int, columnStats: string)

  /** The columns a SELECT on partitions returns. */
  datatype PartitionRow = PartitionRow(id: nat, tableId: nat, snapshotId: nat, data: PartitionData)

  /** A stored partition: the row and its tombstone columns (0 stands for NULL). */
  datatype Tuple = Tuple(row: PartitionRow, isDeleted: bool, deletedSnapshotId: nat)

  datatype TableRow = TableRow(
    id: nat, schemaJson: string, schemaVersion: int, partitionSpec: string, current: nat,
    properties: string, isDeleted: bool)

  datatype SnapshotRow = SnapshotRow(tableId: nat, parent: nat, operation: string, added: nat, deleted: nat)

  datatype HistoryRow = HistoryRow(tableId: nat, version: int, schemaJson: string, summary: string)

  /** tables is keyed by its UNIQUE table_name, the others by their serial key;
      the last* numbers are the id sequences, which a rollback does not rewind. */
  datatype Store = Store(
    tables: map<string, TableRow>,
    snapshots: map<nat, SnapshotRow>,
    partitions: map<nat, Tuple>,
    history: seq<HistoryRow>,
    lastTable: nat, lastSnapshot: nat, lastPartition: nat)

  const EMPTY: Store := Store(map[], map[], map[], [], 0, 0, 0)

  // ---- SELECT ----

  predicate IsLive(st: Store, name: string) {
    name in st.tables && !st.tables[name].isDeleted
  }

  function GetTable(st: Store, name: string): Option<TableRow> {
    if IsLive(st, name) then Some(st.tables[name]) else None
  }

  function TableId(st: Store, name: string): Option<nat> {
    if IsLive(st, name) then Some(st.tables[name].id) else None
  }

  /** 0 both for "no snapshot yet" and for "no such table". */
  function CurrentSnapshot(st: Store, name: string): nat {
    if IsLive(st, name) then st.tables[name].current else 0
  }

  /** The snapshot that a read resolves to, counter being the process-wide transaction counter. */
  function ReadSnapshot(st: Store, name: string, want: nat, counter: nat): nat {
    if want != 0 then want else if counter != 0 then counter else CurrentSnapshot(st, name)
  }

  /** The WHERE clause of query_partitions. */
  predicate Visible(t: Tuple, tableId: nat, snap: nat) {
    && t.row.tableId == tableId
    && t.row.snapshotId <= snap
    && (!t.isDeleted || t.deletedSnapshotId > snap)
  }

  predicate Shows(parts: map<nat, Tuple>, tableId: nat, snap: nat, id: nat) {
    id in parts && Visible(parts[id], tableId, snap)
  }

  /** The visible rows with lo < partition_id <= hi, ORDER BY partition_id. */
  function Scan(parts: map<nat, Tuple>, tableId: nat, snap: nat, lo: nat, hi: nat): seq<PartitionRow> {
    if hi <= lo then []
    else Scan(parts, tableId, snap, lo, hi - 1) +
         if Shows(parts, tableId, snap, hi) then [parts[hi].row] else []
  }

  function Take<T>(s: seq<T>, n: nat): (r: seq<T>)
    ensures r <= s && |r| == if n <= |s| then n else |s|
  {
    if n <= |s| then s[..n] else s
  }

  function QueryPartitions(st: Store, name: string, snap: nat): Option<seq<PartitionRow>> {
    if !IsLive(st, name) || snap > MAX_BIGINT then None
    else Some(Scan(st.partitions, st.tables[name].id, snap, 0, st.lastPartition))
  }

  /** Keyset paging: rows after last, at most limit of them (1000 for a limit that is not positive). */
  function QueryPage(st: Store, name: string, snap: nat, limit: int, last: int): Option<seq<PartitionRow>> {
    if !IsLive(st, name) || snap > MAX_BIGINT then None
    else
      var after := if last > 0 then last else 0;
      Some(Take(Scan(st.partitions, st.tables[name].id, snap, after, st.lastPartition),
                if limit > 0 then limit else 1000))
  }

  // ---- Statements of a commit ----

  function NewRow(id: nat, tableId: nat, snap: nat, data: PartitionData): PartitionRow {
    PartitionRow(id, tableId, snap, data.(columnStats := if data.columnStats == "" then "{}" else data.columnStats))
  }

  /** The row carries a client's partition, column by column. */
  ghost predicate Carries(row: PartitionRow, data: PartitionData) {
    && row.data.key == data.key
    && row.data.path == data.path
    && row.data.format == data.format
    && row.data.rowCount == data.rowCount
    && row.data.sizeBytes == data.sizeBytes
    && row.data.columnStats == (if data.columnStats == "" then "{}" else data.columnStats)
  }

  function Inserted(row: PartitionRow): Tuple {
    Tuple(row, false, 0)
  }

  function WithRow(parts: map<nat, Tuple>, row: PartitionRow): map<nat, Tuple> {
    parts[row.id := Inserted(row)]
  }

  function WithRows(parts: map<nat, Tuple>, rows: seq<PartitionRow>): map<nat, Tuple> {
    if rows == [] then parts else WithRow(WithRows(parts, rows[..|rows| - 1]), rows[|rows| - 1])
  }

  function Marked(t: Tuple, tableId: nat, keys: set<string>, snap: nat): Tuple {
    if t.row.tableId == tableId && t.row.data.key in keys && !t.isDeleted
    then t.(isDeleted := true, deletedSnapshotId := snap)
    else t
  }

  /** UPDATE partitions SET is_deleted, deleted_snapshot_id for the live rows with these keys. */
  function MarkDeleted(parts: map<nat, Tuple>, tableId: nat, keys: set<string>, snap: nat): map<nat, Tuple> {
    map id | id in parts :: Marked(parts[id], tableId, keys, snap)
  }

  function KeySet(keys: seq<string>): set<string> {
    set k | k in keys
  }

  /** What a client asks commit_snapshot to do. */
  datatype Request = Request(parent: nat, operation: string, added: seq<PartitionData>, deleted: seq<string>)

  /** A committed change, as the log of a table remembers it. */
  datatype Delta = Delta(tableId: nat, added: seq<PartitionRow>, deleted: set<string>)

  /** The rows with a key outside keys, in order. */
  function DropKeys(rows: seq<PartitionRow>, keys: set<string>): seq<PartitionRow> {
    if rows == [] then []
    else DropKeys(rows[..|rows| - 1], keys) +
         if rows[|rows| - 1].data.key in keys then [] else [rows[|rows| - 1]]
  }

  /** A commit appends its rows and then removes every row, old or just added, with a deleted key. */
  function Apply(rows: seq<PartitionRow>, d: Delta): seq<PartitionRow> {
    DropKeys(rows + d.added, d.deleted)
  }

  /** The store after COMMIT of snapshot n on a live table. */
  function Publish(st: Store, name: string, n: nat, req: Request, added: seq<PartitionRow>): Store
    requires name in st.tables
  {
    var t := st.tables[name];
    st.(tables := st.tables[name := t.(current := n)],
        snapshots := st.snapshots[n := SnapshotRow(t.id, req.parent, req.operation, |req.added|, |req.deleted|)],
        partitions := MarkDeleted(WithRows(st.partitions, added), t.id, KeySet(req.deleted), n))
  }

  // ---- Statements of the catalog ----

  /** INSERT ... ON CONFLICT DO NOTHING: None when the name is taken, by a soft-deleted table too. */
  function CreateTable(st: Store, name: string, id: nat, schemaJson: string, spec: string,
      props: string): Option<Store>
  {
    if name in st.tables then None
    else Some(st.(tables := st.tables[name := TableRow(id, schemaJson, 1, spec, 0, props, false)]))
  }

  /** The UPDATE of tables and the INSERT into schema_history that bracket an ALTER. */
  function UpdateTableSchema(st: Store, name: string, schemaJson: string, version: int,
      summary: string): Option<Store>
  {
    if !IsLive(st, name) then None
    else
      var t := st.tables[name];
      Some(st.(tables := st.tables[name := t.(schemaJson := schemaJson, schemaVersion := version)],
               history := st.history + [HistoryRow(t.id, version, schemaJson, summary)]))
  }

  /** UPDATE of table_name: no row matched is still a success; a taken name violates UNIQUE. */
  function RenameTable(st: Store, from: string, to: string): Option<Store> {
    if !IsLive(st, from) || from == to then Some(st)
    else if to in st.tables then None
    else Some(st.(tables := (map x | x in st.tables && x != from :: st.tables[x])[to := st.tables[from]]))
  }

  function HistoryWithout(h: seq<HistoryRow>, tableId: nat): seq<HistoryRow> {
    if h == [] then []
    else if h[0].tableId == tableId then HistoryWithout(h[1..], tableId)
    else [h[0]] + HistoryWithout(h[1..], tableId)
  }

  function DropTable(st: Store, name: string, purge: bool): Option<Store> {
    if !IsLive(st, name) then None
    else if !purge then Some(st.(tables := st.tables[name := st.tables[name].(isDeleted := true)]))
    else
      var id := st.tables[name].id;
      Some(st.(tables := map x | x in st.tables && x != name :: st.tables[x],
               partitions := map p | p in st.partitions && st.partitions[p].row.tableId != id :: st.partitions[p],
               snapshots := map s | s in st.snapshots && st.snapshots[s].tableId != id :: st.snapshots[s],
               history := HistoryWithout(st.history, id)))
  }
}
