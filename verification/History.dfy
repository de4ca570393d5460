/** What every transaction on the store keeps: ids and pointers in order,
    reads that replay the log, and linear histories above each table's root. */
module History {
  import opened Store
  import opened Replay
  import opened Chain

  /** A store with its commit log (what each committed snapshot changed) and,
      per table, the last snapshot committed with parent 0. */
  datatype Ledger = Ledger(db: Store, log: map<nat, Delta>, roots: map<nat, nat>)

  ghost predicate TablesOk(db: Store) {
    && (forall x :: x in db.tables ==> 0 < db.tables[x].id <= db.lastTable && db.tables[x].current <= db.lastSnapshot)
    && (forall x, y :: x in db.tables && y in db.tables && x != y ==> db.tables[x].id != db.tables[y].id)
  }

  ghost predicate PartitionsOk(db: Store) {
    forall p :: p in db.partitions ==>
      0 < p <= db.lastPartition && db.partitions[p].row.id == p && db.partitions[p].row.tableId <= db.lastTable
  }

  ghost predicate LogOk(db: Store, log: map<nat, Delta>) {
    && (forall n :: n in log <==> n in db.snapshots)
    && (forall n :: n in log ==> 0 < n <= db.lastSnapshot && log[n].tableId == db.snapshots[n].tableId <= db.lastTable)
  }

  /** Every row, tombstone and commit of a table is at most its current snapshot. */
  ghost predicate PointersOk(db: Store, log: map<nat, Delta>) {
    && (forall x, p :: x in db.tables && p in db.partitions && db.partitions[p].row.tableId == db.tables[x].id ==>
          db.partitions[p].row.snapshotId <= db.tables[x].current
          && db.partitions[p].deletedSnapshotId <= db.tables[x].current)
    && (forall x, n :: x in db.tables && n in log && log[n].tableId == db.tables[x].id ==> n <= db.tables[x].current)
  }

  function Root(roots: map<nat, nat>, tid: nat): nat {
    if tid in roots then roots[tid] else 0
  }

  /** The history kept for one table. */
  ghost predicate HistoryOk(db: Store, roots: map<nat, nat>, x: string)
    requires x in db.tables
  {
    LinearFrom(Parents(db.snapshots, db.tables[x].id), Root(roots, db.tables[x].id), db.tables[x].current)
  }

  ghost predicate HistoriesOk(db: Store, roots: map<nat, nat>) {
    forall x :: x in db.tables ==> HistoryOk(db, roots, x)
  }

  /** Ids, sequences and pointers are in order. */
  ghost predicate Shape(l: Ledger) {
    TablesOk(l.db) && PartitionsOk(l.db) && LogOk(l.db, l.log) && PointersOk(l.db, l.log)
  }

  ghost predicate Ok(l: Ledger) {
    && Shape(l)
    && Refines(l.db.partitions, l.db.lastPartition, l.log)
    && HistoriesOk(l.db, l.roots)
  }

  const START: Ledger := Ledger(EMPTY, map[], map[])

  lemma StartOk()
    ensures Ok(START)
  {
    forall tid: nat, s: nat ensures Scan(EMPTY.partitions, tid, s, 0, 0) == Replayed(map[], tid, s) {
      ReplayedFurther(map[], tid, 0, s);
    }
  }

  // ---- Id sequences move on without a row ----

  function Drawn(l: Ledger, tables: nat, snapshots: nat, partitions: nat): Ledger {
    l.(db := l.db.(lastTable := l.db.lastTable + tables,
                   lastSnapshot := l.db.lastSnapshot + snapshots,
                   lastPartition := l.db.lastPartition + partitions))
  }

  lemma DrawnOk(l: Ledger, tables: nat, snapshots: nat, partitions: nat)
    requires Ok(l)
    ensures Ok(Drawn(l, tables, snapshots, partitions))
    ensures forall x, s: nat ::
              QueryPartitions(Drawn(l, tables, snapshots, partitions).db, x, s) == QueryPartitions(l.db, x, s)
  {
    var l' := Drawn(l, tables, snapshots, partitions);
    forall tid: nat, s: nat
      ensures Scan(l'.db.partitions, tid, s, 0, l'.db.lastPartition) ==
        Scan(l.db.partitions, tid, s, 0, l.db.lastPartition)
    {
      ScanFurther(l.db.partitions, tid, s, l.db.lastPartition, l'.db.lastPartition);
    }
    forall tid: nat, s: nat ensures Scan(l'.db.partitions, tid, s, 0, l'.db.lastPartition) == Replayed(l'.log, tid, s) {
      assert Scan(l.db.partitions, tid, s, 0, l.db.lastPartition) == Replayed(l.log, tid, s);
    }
  }

  // ---- COMMIT of a snapshot ----

  /** An open commit on table x that has drawn snapshot n and inserted rows. */
  ghost predicate Writing(l: Ledger, x: string, tid: nat, n: nat, base: nat, req: Request, added: seq<PartitionRow>) {
    && IsLive(l.db, x) && l.db.tables[x].id == tid
    && l.db.tables[x].current < n <= l.db.lastSnapshot && n !in l.log
    && base <= l.db.lastPartition && Ascending(added, base, l.db.lastPartition)
    && |added| <= |req.added|
    && (forall i :: 0 <= i < |added| ==>
          added[i] == NewRow(added[i].id, tid, n, req.added[i]) && added[i].id !in l.db.partitions)
    && (forall p :: p in l.db.partitions && l.db.partitions[p].row.tableId == tid ==> p <= base)
    && (req.parent == l.db.tables[x].current || req.parent == 0)
  }

  /** A partition INSERT draws an id above all rows and all ids drawn before. */
  lemma WritingGrows(l: Ledger, x: string, tid: nat, n: nat, base: nat, req: Request, added: seq<PartitionRow>,
      gap: nat)
    requires PartitionsOk(l.db) && Writing(l, x, tid, n, base, req, added) && |added| < |req.added|
    ensures
      var l' := Drawn(l, 0, 0, gap + 1);
      Writing(l', x, tid, n, base, req, added + [NewRow(l'.db.lastPartition, tid, n, req.added[|added|])])
  {
  }

  function Published(l: Ledger, x: string, n: nat, req: Request, added: seq<PartitionRow>): Ledger
    requires x in l.db.tables
  {
    var tid := l.db.tables[x].id;
    Ledger(Publish(l.db, x, n, req, added),
           l.log[n := Delta(tid, added, KeySet(req.deleted))],
           if req.parent == 0 then l.roots[tid := n] else l.roots)
  }

  lemma WritingIsPublishable(l: Ledger, x: string, tid: nat, n: nat, base: nat, req: Request, added: seq<PartitionRow>)
    requires Shape(l) && Writing(l, x, tid, n, base, req, added)
    ensures Publishable(l.db.partitions, l.log, tid, n, base, added, l.db.lastPartition)
  {
  }

  lemma PublishedPartitionsOk(l: Ledger, x: string, tid: nat, n: nat, base: nat, req: Request, added: seq<PartitionRow>)
    requires Shape(l) && Writing(l, x, tid, n, base, req, added)
    ensures PartitionsOk(Published(l, x, n, req, added).db)
    ensures PointersOk(Published(l, x, n, req, added).db, Published(l, x, n, req, added).log)
  {
    var db, db' := l.db, Published(l, x, n, req, added).db;
    forall p | p in db'.partitions
      ensures 0 < p <= db'.lastPartition && db'.partitions[p].row.id == p
      ensures db'.partitions[p].row.tableId <= db'.lastTable
      ensures forall y :: y in db'.tables && db'.partitions[p].row.tableId == db'.tables[y].id ==>
        db'.partitions[p].row.snapshotId <= db'.tables[y].current
        && db'.partitions[p].deletedSnapshotId <= db'.tables[y].current
    {
      WithRowsAt(db.partitions, added, p);
      if i :| 0 <= i < |added| && added[i].id == p {
        assert WithRows(db.partitions, added)[p] == Inserted(added[i]);
      } else {
        assert p in db.partitions && WithRows(db.partitions, added)[p] == db.partitions[p];
      }
    }
  }

  /** One more snapshot on top of current, or a new root. */
  lemma LinearGrows(parents: map<nat, nat>, root: nat, current: nat, n: nat, parent: nat)
    requires LinearFrom(parents, root, current) && current < n && (parent == current || parent == 0)
    ensures LinearFrom(parents[n := parent], if parent == 0 then n else root, n)
  {
  }

  lemma ParentsGrow(snapshots: map<nat, SnapshotRow>, n: nat, row: SnapshotRow, id: nat)
    requires n !in snapshots
    ensures Parents(snapshots[n := row], id) ==
            if id == row.tableId then Parents(snapshots, id)[n := row.parent] else Parents(snapshots, id)
  {
  }

  lemma PublishedHistory(l: Ledger, x: string, tid: nat, n: nat, base: nat, req: Request, added: seq<PartitionRow>,
      y: string)
    requires Shape(l) && Writing(l, x, tid, n, base, req, added) && y in l.db.tables && HistoryOk(l.db, l.roots, y)
    ensures HistoryOk(Published(l, x, n, req, added).db, Published(l, x, n, req, added).roots, y)
  {
    var l', id := Published(l, x, n, req, added), l.db.tables[y].id;
    ParentsGrow(l.db.snapshots, n, l'.db.snapshots[n], id);
    if y == x {
      LinearGrows(Parents(l.db.snapshots, id), Root(l.roots, id), l.db.tables[x].current, n, req.parent);
    } else {
      assert id != tid;
    }
  }

  lemma PublishedHistoriesOk(l: Ledger, x: string, tid: nat, n: nat, base: nat, req: Request, added: seq<PartitionRow>)
    requires Shape(l) && HistoriesOk(l.db, l.roots) && Writing(l, x, tid, n, base, req, added)
    ensures HistoriesOk(Published(l, x, n, req, added).db, Published(l, x, n, req, added).roots)
  {
    var l' := Published(l, x, n, req, added);
    forall y | y in l'.db.tables ensures HistoryOk(l'.db, l'.roots, y) {
      assert HistoryOk(l.db, l.roots, y);
      PublishedHistory(l, x, tid, n, base, req, added, y);
    }
  }

  lemma PublishedTablesOk(l: Ledger, x: string, tid: nat, n: nat, base: nat, req: Request, added: seq<PartitionRow>)
    requires Shape(l) && Writing(l, x, tid, n, base, req, added)
    ensures TablesOk(Published(l, x, n, req, added).db)
    ensures LogOk(Published(l, x, n, req, added).db, Published(l, x, n, req, added).log)
  {
  }

  lemma PublishedRefines(l: Ledger, x: string, tid: nat, n: nat, base: nat, req: Request, added: seq<PartitionRow>)
    requires Ok(l) && Writing(l, x, tid, n, base, req, added)
    ensures Refines(Published(l, x, n, req, added).db.partitions, l.db.lastPartition,
      Published(l, x, n, req, added).log)
  {
    WritingIsPublishable(l, x, tid, n, base, req, added);
    PublishRefines(l.db.partitions, l.log, tid, n, base, added, l.db.lastPartition, KeySet(req.deleted));
  }

  lemma PublishedOk(l: Ledger, x: string, tid: nat, n: nat, base: nat, req: Request, added: seq<PartitionRow>)
    requires Ok(l) && Writing(l, x, tid, n, base, req, added)
    ensures Ok(Published(l, x, n, req, added))
  {
    PublishedTablesOk(l, x, tid, n, base, req, added);
    PublishedRefines(l, x, tid, n, base, req, added);
    PublishedPartitionsOk(l, x, tid, n, base, req, added);
    PublishedHistoriesOk(l, x, tid, n, base, req, added);
  }

  /** A commit changes no other table, and no snapshot of its own below n. */
  lemma PublishedQuery(l: Ledger, x: string, tid: nat, n: nat, base: nat, req: Request, added: seq<PartitionRow>,
      y: string, s: nat)
    requires Shape(l) && Writing(l, x, tid, n, base, req, added)
    requires y != x || s < n
    ensures QueryPartitions(Published(l, x, n, req, added).db, y, s) == QueryPartitions(l.db, y, s)
  {
    if IsLive(l.db, y) {
      WritingIsPublishable(l, x, tid, n, base, req, added);
      var p, q, id := l.db.partitions, Published(l, x, n, req, added).db.partitions, l.db.tables[y].id;
      forall k: nat ensures SameAt(p, s, q, s, id, k) {
        CommittedAt(p, l.log, tid, n, base, added, l.db.lastPartition, KeySet(req.deleted), id, s, k);
      }
      ScanSame(p, q, id, s, s, 0, l.db.lastPartition);
    }
  }
}
