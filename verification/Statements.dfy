/** What queries answer and what catalog operations leave, said in the columns of
    the tables alone, without the functions that compute it. */
module Statements {
  import opened Options
  import opened Store
  import opened Replay
  import opened History
  import opened Catalog
  import SchemaHistory

  type Rows = seq<PartitionRow>

  // ---- Queries ----

  /** rows are the answer of SELECT ... WHERE ... ORDER BY partition_id on a live table. */
  ghost predicate IsSelected(db: Store, tid: nat, snap: nat, rows: Rows) {
    && (forall i, j :: 0 <= i < j < |rows| ==> rows[i].id < rows[j].id)
    && (forall i :: 0 <= i < |rows| ==> rows[i].id in db.partitions && db.partitions[rows[i].id].row == rows[i])
    && (forall p :: p in db.partitions ==>
          var t := db.partitions[p];
          (t.row in rows <==>
             && t.row.tableId == tid && t.row.snapshotId <= snap
             && (t.isDeleted ==> t.deletedSnapshotId > snap)))
  }

  /** A query answers iff a table of that name is not deleted and the snapshot number
      fits a BIGINT; and what it answers are the rows that the SELECT describes. */
  lemma SelectedRows(db: Store, x: string, snap: nat)
    requires PartitionsOk(db)
    ensures QueryPartitions(db, x, snap).Some? <==>
              x in db.tables && !db.tables[x].isDeleted && snap <= 9_223_372_036_854_775_807
    ensures QueryPartitions(db, x, snap).Some? ==>
              IsSelected(db, db.tables[x].id, snap, QueryPartitions(db, x, snap).value)
  {
    if IsLive(db, x) {
      var tid := db.tables[x].id;
      ScanIds(db.partitions, tid, snap, 0, db.lastPartition);
      var rows := Scan(db.partitions, tid, snap, 0, db.lastPartition);
      forall p | p in db.partitions ensures db.partitions[p].row in rows <==> Shows(db.partitions, tid, snap, p) {
        if Shows(db.partitions, tid, snap, p) {
          ScanMisses(db.partitions, tid, snap, 0, db.lastPartition, p);
        }
      }
    }
  }

  /** page holds the rows of the whole after the last id, in order, and the first k are
      those up to it: as many as the limit, or 1000, and fewer only if no more follow. */
  ghost predicate IsPage(page: Rows, whole: Rows, last: int, limit: int, k: nat) {
    var most := if limit > 0 then limit else 1000;
    && k <= |whole|
    && (forall i :: 0 <= i < |whole| ==> (whole[i].id <= last <==> i < k))
    && |page| == (if |whole| - k <= most then |whole| - k else most)
    && (forall j :: 0 <= j < |page| ==> page[j] == whole[k + j])
  }

  /** A paged query answers iff the full one does, with a page of it. */
  lemma PagedRows(db: Store, x: string, snap: nat, limit: int, last: int) returns (k: nat)
    requires PartitionsOk(db)
    ensures
      var page, whole := QueryPage(db, x, snap, limit, last), QueryPartitions(db, x, snap);
      (page.Some? <==> whole.Some?) && (page.Some? ==> IsPage(page.value, whole.value, last, limit, k))
  {
    k := 0;
    if IsLive(db, x) {
      var p, tid, hi := db.partitions, db.tables[x].id, db.lastPartition;
      var lo := if last > 0 then last else 0;
      if lo <= hi {
        ScanSplit(p, tid, snap, 0, lo, hi);
        ScanIds(p, tid, snap, lo, hi);
        ScanIds(p, tid, snap, 0, lo);
        k := |Scan(p, tid, snap, 0, lo)|;
      } else {
        ScanIds(p, tid, snap, 0, hi);
        k := |Scan(p, tid, snap, 0, hi)|;
      }
    }
  }

  // ---- The catalog ----

  /** Rows of partitions, snapshots and schema_history stay as they are. */
  ghost predicate SameContents(db: Store, db': Store) {
    db'.partitions == db.partitions && db'.snapshots == db.snapshots && db'.history == db.history
  }

  /** Every table but those of these names is there iff it was, with the same columns. */
  ghost predicate OthersSame(db: Store, db': Store, names: set<string>) {
    forall z :: z !in names ==>
      (z in db'.tables <==> z in db.tables) && (z in db.tables && z in db'.tables ==> db'.tables[z] == db.tables[z])
  }

  /** x is a new live table with the request's columns, version 1, no snapshot and its own id. */
  ghost predicate IsCreated(db: Store, db': Store, x: string, schemaJson: string, spec: string, props: string) {
    && x !in db.tables && x in db'.tables && OthersSame(db, db', {x}) && SameContents(db, db')
    && var t := db'.tables[x];
    && !t.isDeleted && t.schemaJson == schemaJson && t.schemaVersion == 1 && t.partitionSpec == spec
    && t.properties == props && t.current == 0
    && forall z :: z in db.tables ==> db.tables[z].id != t.id
  }

  /** x has the new schema and the next version, recorded at the end of the history, and
      all its other columns as before. */
  ghost predicate IsAltered(db: Store, db': Store, x: string, schemaJson: string, summary: string) {
    && x in db.tables && x in db'.tables && OthersSame(db, db', {x})
    && db'.partitions == db.partitions && db'.snapshots == db.snapshots
    && var t, t' := db.tables[x], db'.tables[x];
    && !t.isDeleted && !t'.isDeleted && t'.schemaJson == schemaJson && t'.schemaVersion == t.schemaVersion + 1
    && t'.id == t.id && t'.partitionSpec == t.partitionSpec && t'.current == t.current && t'.properties == t.properties
    && |db'.history| == |db.history| + 1 && db.history <= db'.history
    && var h := db'.history[|db.history|];
    && h.tableId == t.id && h.version == t.schemaVersion + 1 && h.schemaJson == schemaJson && h.summary == summary
  }

  /** The live table x is called y now, with all its columns; a rename of a missing table
      or onto its own name changes nothing. */
  ghost predicate IsRenamed(db: Store, db': Store, x: string, y: string) {
    && SameContents(db, db') && OthersSame(db, db', {x, y})
    && if x in db.tables && !db.tables[x].isDeleted && x != y then
         && y !in db.tables && x !in db'.tables && y in db'.tables
         && var t, t' := db.tables[x], db'.tables[y];
         && !t'.isDeleted && t'.id == t.id && t'.schemaJson == t.schemaJson && t'.schemaVersion == t.schemaVersion
         && t'.partitionSpec == t.partitionSpec && t'.current == t.current && t'.properties == t.properties
       else db'.tables == db.tables
  }

  /** A soft drop keeps everything of x but that it is not live; a purge leaves nothing
      of it, and everything of every other table. */
  ghost predicate IsDropped(db: Store, db': Store, x: string, purge: bool) {
    && x in db.tables && !db.tables[x].isDeleted && OthersSame(db, db', {x})
    && var t := db.tables[x];
    if !purge then
      && SameContents(db, db') && x in db'.tables
      && var t' := db'.tables[x];
      && t'.isDeleted && t'.id == t.id && t'.schemaJson == t.schemaJson && t'.schemaVersion == t.schemaVersion
      && t'.partitionSpec == t.partitionSpec && t'.current == t.current && t'.properties == t.properties
    else
      && x !in db'.tables
      && (forall p :: p in db'.partitions <==> p in db.partitions && db.partitions[p].row.tableId != t.id)
      && (forall p :: p in db'.partitions && p in db.partitions ==> db'.partitions[p] == db.partitions[p])
      && (forall n :: n in db'.snapshots <==> n in db.snapshots && db.snapshots[n].tableId != t.id)
      && (forall n :: n in db'.snapshots && n in db.snapshots ==> db'.snapshots[n] == db.snapshots[n])
      && (forall tid: nat :: SchemaHistory.HistoryOf(db'.history, tid) ==
            if tid == t.id then [] else SchemaHistory.HistoryOf(db.history, tid))
  }

  /** What a catalog operation leaves. */
  ghost predicate Leaves(db: Store, db': Store, op: Ddl) {
    match op
    case Create(x, schemaJson, spec, props) => IsCreated(db, db', x, schemaJson, spec, props)
    case Alter(x, schemaJson, summary) => IsAltered(db, db', x, schemaJson, summary)
    case Rename(x, y) => IsRenamed(db, db', x, y)
    case Drop(x, purge) => IsDropped(db, db', x, purge)
  }

  /** When it can: a create on a free name, an alter or a drop of a live table, a rename
      onto a free name, or one with nothing to do. */
  predicate Possible(db: Store, op: Ddl) {
    var live := op.name in db.tables && !db.tables[op.name].isDeleted;
    match op
    case Create(x, _, _, _) => x !in db.tables
    case Alter(_, _, _) => live
    case Rename(x, y) => !live || x == y || y !in db.tables
    case Drop(_, _) => live
  }

  /** A catalog operation has an effect exactly when it is possible, and leaves what it should. */
  lemma EffectLeaves(l: Ledger, op: Ddl)
    requires TablesOk(l.db)
    ensures Effect(l, op).Some? <==> Possible(l.db, op)
    ensures Effect(l, op).Some? ==> Leaves(l.db, Effect(l, op).value.db, op)
  {
    match op
    case Create(_, _, _, _) =>
    case Alter(_, _, _) =>
    case Rename(_, _) =>
    case Drop(x, purge) =>
      if IsLive(l.db, x) && purge {
        PurgeLeaves(l, x);
      }
  }

  lemma PurgeLeaves(l: Ledger, x: string)
    requires TablesOk(l.db) && IsLive(l.db, x)
    ensures IsDropped(l.db, Effect(l, Drop(x, true)).value.db, x, true)
  {
    forall tid: nat ensures SchemaHistory.HistoryOf(Effect(l, Drop(x, true)).value.db.history, tid) ==
        if tid == l.db.tables[x].id then [] else SchemaHistory.HistoryOf(l.db.history, tid)
    {
      SchemaHistory.PurgedHistory(l.db.history, l.db.tables[x].id, tid);
    }
  }

  /** So readers of a renamed table read under its new name what they read under the old
      one, at every snapshot, and nothing under the old one. */
  lemma RenamedReads(l: Ledger, x: string, y: string, snap: nat)
    requires Ok(l) && IsLive(l.db, x) && x != y && Effect(l, Rename(x, y)).Some?
    ensures
      var db' := Effect(l, Rename(x, y)).value.db;
      && GetTable(db', y) == GetTable(l.db, x) && QueryPartitions(db', y, snap) == QueryPartitions(l.db, x, snap)
      && GetTable(db', x) == None && QueryPartitions(db', x, snap) == None
  {
  }

  /** A table just created is empty at every snapshot. */
  lemma CreatedReads(l: Ledger, op: Ddl, snap: nat)
    requires Ok(l) && op.Create? && Effect(l, op).Some? && snap <= MAX_BIGINT
    ensures QueryPartitions(Effect(l, op).value.db, op.name, snap) == Some([])
  {
    var db' := Effect(l, op).value.db;
    ScanNothing(db'.partitions, db'.tables[op.name].id, snap, 0, db'.lastPartition);
  }

  /** A dropped table answers nothing any more, whichever way it was dropped. */
  lemma DroppedReads(l: Ledger, x: string, purge: bool, snap: nat)
    requires Effect(l, Drop(x, purge)).Some?
    ensures
      var db' := Effect(l, Drop(x, purge)).value.db;
      GetTable(db', x) == None && QueryPartitions(db', x, snap) == None && !Possible(db', Drop(x, purge))
  {
  }
}
