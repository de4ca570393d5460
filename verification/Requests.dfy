/** What a commit leaves, said in the columns of its request: the rows a reader sees
    afterwards, the rows of the tables, and the totals. */
module Requests {
  import opened Store
  import opened Replay
  import opened History
  import opened Statistics

  type Rows = seq<PartitionRow>

  // ---- What a reader sees ----

  /** after is before and then the request's partitions, stored by snapshot n, in order
      and less all whose key the request deletes; picks are the places that stay. */
  ghost predicate ShowsRequest(before: Rows, n: nat, req: Request, after: Rows, picks: seq<nat>) {
    && |after| == |picks|
    && (forall i, j :: 0 <= i < j < |picks| ==> picks[i] < picks[j])
    && (forall j :: 0 <= j < |picks| ==> picks[j] < |before| + |req.added|)
    && (forall k :: 0 <= k < |before| ==> (k in picks <==> before[k].data.key !in req.deleted))
    && (forall k :: 0 <= k < |req.added| ==> (|before| + k in picks <==> req.added[k].key !in req.deleted))
    && (forall j :: 0 <= j < |picks| ==>
          if picks[j] < |before| then after[j] == before[picks[j]]
          else Carries(after[j], req.added[picks[j] - |before|]) && after[j].snapshotId == n)
  }

  /** picks are the places of the rows that survive when keys are dropped. */
  ghost predicate AreSurvivors(rows: Rows, keys: set<string>, picks: seq<nat>) {
    && |DropKeys(rows, keys)| == |picks|
    && (forall i, j :: 0 <= i < j < |picks| ==> picks[i] < picks[j])
    && (forall j :: 0 <= j < |picks| ==> picks[j] < |rows|)
    && (forall k :: 0 <= k < |rows| ==> (k in picks <==> rows[k].data.key !in keys))
    && (forall j :: 0 <= j < |picks| ==> DropKeys(rows, keys)[j] == rows[picks[j]])
  }

  lemma OneRowMore(rows: Rows, row: PartitionRow, keys: set<string>, picks: seq<nat>)
    requires AreSurvivors(rows, keys, picks)
    ensures AreSurvivors(rows + [row], keys, if row.data.key in keys then picks else picks + [|rows|])
  {
    DropKeysConcat(rows, [row], keys);
    assert [row][..0] == [];
    forall k | 0 <= k < |rows| ensures k in picks + [|rows|] <==> rows[k].data.key !in keys {
    }
  }

  lemma {:induction false} Survivors(rows: Rows, keys: set<string>) returns (picks: seq<nat>)
    ensures AreSurvivors(rows, keys, picks)
  {
    if rows == [] {
      picks := [];
    } else {
      var init, row := rows[..|rows| - 1], rows[|rows| - 1];
      assert rows == init + [row];
      var earlier := Survivors(init, keys);
      OneRowMore(init, row, keys, earlier);
      picks := if row.data.key in keys then earlier else earlier + [|init|];
    }
  }

  lemma AppliedShowsRequest(before: Rows, tid: nat, n: nat, req: Request, added: Rows) returns (picks: seq<nat>)
    requires |added| == |req.added|
    requires forall i :: 0 <= i < |added| ==> Carries(added[i], req.added[i]) && added[i].snapshotId == n
    ensures ShowsRequest(before, n, req, Apply(before, Delta(tid, added, KeySet(req.deleted))), picks)
  {
    var rows := before + added;
    picks := Survivors(rows, KeySet(req.deleted));
    forall k | 0 <= k < |req.added| ensures |before| + k in picks <==> req.added[k].key !in req.deleted {
      assert rows[|before| + k] == added[k];
    }
  }

  /** At its own snapshot and any later one, a published commit shows what was there
      before, and then its request's partitions, less every one whose key it deletes. */
  lemma CommitShowsRequest(l: Ledger, x: string, tid: nat, n: nat, base: nat, req: Request, added: Rows, s: nat)
    returns (picks: seq<nat>)
    requires Ok(l) && Writing(l, x, tid, n, base, req, added) && |added| == |req.added| && n <= s <= MAX_BIGINT
    ensures
      var before, after := QueryPartitions(l.db, x, s), QueryPartitions(Published(l, x, n, req, added).db, x, s);
      before.Some? && after.Some? && ShowsRequest(before.value, n, req, after.value, picks)
  {
    CommitApplies(l, x, tid, n, base, req, added, s);
    picks := AppliedShowsRequest(QueryPartitions(l.db, x, s).value, tid, n, req, added);
  }

  /** A key that one request adds and the next one deletes is not read any more. */
  lemma DeletedByRequestedKey(l: Ledger, x: string, tid: nat, n: nat, base: nat, req: Request, added: Rows,
      n': nat, base': nat, req': Request, added': Rows, i: nat, s: nat)
    requires Ok(l) && Writing(l, x, tid, n, base, req, added) && i < |added|
    requires var l' := Published(l, x, n, req, added);
      Ok(l') && Writing(l', x, tid, n', base', req', added') && |added'| == |req'.added| && n' <= s <= MAX_BIGINT
    requires req.added[i].key in req'.deleted
    ensures
      var after := QueryPartitions(Published(Published(l, x, n, req, added), x, n', req', added').db, x, s);
      after.Some? && added[i] !in after.value
  {
    var l' := Published(l, x, n, req, added);
    CommitApplies(l', x, tid, n', base', req', added', s);
    var rows := QueryPartitions(l'.db, x, s).value + added';
    KeptKeys(rows, KeySet(req'.deleted));
    assert forall r :: r in DropKeys(rows, KeySet(req'.deleted)) ==> r.data.key !in KeySet(req'.deleted);
  }

  /** At snapshot n table x shows what it showed before, and then the request. */
  ghost predicate ReadsAsRequested(db: Store, db': Store, x: string, n: nat, req: Request) {
    var before, after := QueryPartitions(db, x, n), QueryPartitions(db', x, n);
    before.Some? && after.Some? && exists picks :: ShowsRequest(before.value, n, req, after.value, picks)
  }

  // ---- What the tables hold ----

  /** The table's pointer is n; nothing else of its row, of any other table or of the
      schema history has changed. */
  ghost predicate MovesPointer(db: Store, db': Store, x: string, n: nat) {
    && x in db.tables && x in db'.tables && db'.history == db.history
    && (forall z :: z in db'.tables <==> z in db.tables)
    && (forall z :: z in db.tables && z in db'.tables && z != x ==> db'.tables[z] == db.tables[z])
    && var t, t' := db.tables[x], db'.tables[x];
    && t'.current == n && t'.id == t.id && t'.schemaJson == t.schemaJson && t'.schemaVersion == t.schemaVersion
    && t'.partitionSpec == t.partitionSpec && t'.properties == t.properties && !t.isDeleted && !t'.isDeleted
  }

  /** snapshots has one row more, n's: its table, its parent, its operation and its counts. */
  ghost predicate RecordsSnapshot(db: Store, db': Store, tid: nat, n: nat, req: Request) {
    && n !in db.snapshots
    && (forall m :: m in db'.snapshots <==> m in db.snapshots || m == n)
    && (forall m :: m in db.snapshots && m in db'.snapshots ==> db'.snapshots[m] == db.snapshots[m])
    && var row := db'.snapshots[n];
    && row.tableId == tid && row.parent == req.parent && row.operation == req.operation
    && row.added == |req.added| && row.deleted == |req.deleted|
  }

  /** partitions has the request's rows more, and the table's rows with a deleted key,
      old or new, have n as their tombstone unless they had one. */
  ghost predicate RecordsRows(db: Store, db': Store, tid: nat, n: nat, req: Request, added: Rows) {
    && |added| == |req.added|
    && (forall i, j :: 0 <= i < j < |added| ==> added[i].id < added[j].id)
    && (forall i :: 0 <= i < |added| ==>
          && added[i].id in db'.partitions && added[i].id !in db.partitions
          && added[i].tableId == tid && added[i].snapshotId == n && Carries(added[i], req.added[i])
          && var t := db'.partitions[added[i].id];
          && t.row == added[i] && t.isDeleted == (req.added[i].key in req.deleted)
          && (t.isDeleted ==> t.deletedSnapshotId == n))
    && (forall p :: p in db'.partitions && p !in db.partitions ==> exists i :: 0 <= i < |added| && added[i].id == p)
    && (forall p :: p in db.partitions ==>
          p in db'.partitions && Tombstoned(db.partitions[p], db'.partitions[p], tid, n, req))
  }

  /** What the commit makes of a row that was there before. */
  ghost predicate Tombstoned(t: Tuple, t': Tuple, tid: nat, n: nat, req: Request) {
    && t'.row == t.row
    && if t.row.tableId == tid && t.row.data.key in req.deleted && !t.isDeleted
       then t'.isDeleted && t'.deletedSnapshotId == n
       else t'.isDeleted == t.isDeleted && t'.deletedSnapshotId == t.deletedSnapshotId
  }

  /** All of it. */
  ghost predicate Records(db: Store, db': Store, x: string, n: nat, req: Request, added: Rows) {
    && MovesPointer(db, db', x, n)
    && RecordsSnapshot(db, db', db.tables[x].id, n, req)
    && RecordsRows(db, db', db.tables[x].id, n, req, added)
  }

  /** One row of the request, inserted and then marked if its key is deleted. */
  lemma AddedRecorded(db: Store, tid: nat, n: nat, req: Request, added: Rows, i: nat)
    requires forall j, k :: 0 <= j < k < |added| ==> added[j].id < added[k].id
    requires i < |added| && added[i].tableId == tid
    ensures
      var parts := MarkDeleted(WithRows(db.partitions, added), tid, KeySet(req.deleted), n);
      && added[i].id in parts && parts[added[i].id].row == added[i]
      && parts[added[i].id].isDeleted == (added[i].data.key in req.deleted)
      && (parts[added[i].id].isDeleted ==> parts[added[i].id].deletedSnapshotId == n)
  {
    WithRowsAt(db.partitions, added, added[i].id);
  }

  /** One id that the request does not use. */
  lemma OldRecorded(db: Store, tid: nat, n: nat, req: Request, added: Rows, p: nat)
    requires forall j, k :: 0 <= j < k < |added| ==> added[j].id < added[k].id
    requires forall i :: 0 <= i < |added| ==> added[i].id != p
    ensures
      var parts := MarkDeleted(WithRows(db.partitions, added), tid, KeySet(req.deleted), n);
      && (p in parts <==> p in db.partitions)
      && (p in parts ==> Tombstoned(db.partitions[p], parts[p], tid, n, req))
  {
    WithRowsAt(db.partitions, added, p);
  }

  lemma {:induction false} RowsRecorded(db: Store, db': Store, tid: nat, n: nat, base: nat, req: Request, added: Rows)
    requires db'.partitions == MarkDeleted(WithRows(db.partitions, added), tid, KeySet(req.deleted), n)
    requires Ascending(added, base, db.lastPartition) && |added| == |req.added|
    requires forall i :: 0 <= i < |added| ==>
      added[i] == NewRow(added[i].id, tid, n, req.added[i]) && added[i].id !in db.partitions
    ensures RecordsRows(db, db', tid, n, req, added)
  {
    forall i | 0 <= i < |added|
      ensures
        && added[i].id in db'.partitions
        && var t := db'.partitions[added[i].id];
        && t.row == added[i] && t.isDeleted == (req.added[i].key in req.deleted)
        && (t.isDeleted ==> t.deletedSnapshotId == n)
    {
      AddedRecorded(db, tid, n, req, added, i);
    }
    forall p | p in db.partitions
      ensures p in db'.partitions && Tombstoned(db.partitions[p], db'.partitions[p], tid, n, req)
    {
      OldRecorded(db, tid, n, req, added, p);
    }
    forall p | p in db'.partitions && p !in db.partitions ensures exists i :: 0 <= i < |added| && added[i].id == p {
      if forall i :: 0 <= i < |added| ==> added[i].id != p {
        OldRecorded(db, tid, n, req, added, p);
      }
    }
  }

  /** A published commit records its request. */
  lemma PublishedRecords(l: Ledger, x: string, tid: nat, n: nat, base: nat, req: Request, added: Rows)
    requires LogOk(l.db, l.log) && Writing(l, x, tid, n, base, req, added) && |added| == |req.added|
    ensures Records(l.db, Published(l, x, n, req, added).db, x, n, req, added)
  {
    RowsRecorded(l.db, Published(l, x, n, req, added).db, tid, n, base, req, added);
  }

  // ---- Totals ----

  function RowsTotal(rows: Rows): int {
    if rows == [] then 0 else rows[0].data.rowCount + RowsTotal(rows[1..])
  }

  function BytesTotal(rows: Rows): int {
    if rows == [] then 0 else rows[0].data.sizeBytes + BytesTotal(rows[1..])
  }

  /** The sums of a request's own columns. */
  function AddedRows(added: seq<PartitionData>): int {
    if added == [] then 0 else added[0].rowCount + AddedRows(added[1..])
  }

  function AddedBytes(added: seq<PartitionData>): int {
    if added == [] then 0 else added[0].sizeBytes + AddedBytes(added[1..])
  }

  /** The totals are the number of rows and two plain sums; the average is the bytes
      divided by the number, rounded towards zero, and 0 for no rows. */
  ghost predicate InColumns(stats: Stats, rows: Rows) {
    var count, bytes, average := |rows|, BytesTotal(rows), stats.averageBytes;
    && stats.totals.count == count && stats.totals.rows == RowsTotal(rows) && stats.totals.bytes == bytes
    && (count == 0 ==> average == 0)
    && (count > 0 ==> -count < bytes - average * count < count)
    && (count > 0 && bytes >= 0 ==> bytes - average * count >= 0)
    && (count > 0 && bytes <= 0 ==> bytes - average * count <= 0)
  }

  lemma {:induction false} SumInColumns(rows: Rows)
    ensures Sum(rows) == Totals(|rows|, RowsTotal(rows), BytesTotal(rows))
  {
    if rows != [] {
      SumInColumns(rows[1..]);
      SumConcat(rows[..1], rows[1..]);
      assert rows == rows[..1] + rows[1..];
      assert rows[..1][..0] == [];
    }
  }

  lemma StatsInColumns(rows: Rows)
    ensures InColumns(StatsOf(rows), rows)
  {
    SumInColumns(rows);
  }

  lemma {:induction false} AddedTotals(added: Rows, data: seq<PartitionData>)
    requires |added| == |data| && forall i :: 0 <= i < |added| ==> Carries(added[i], data[i])
    ensures RowsTotal(added) == AddedRows(data) && BytesTotal(added) == AddedBytes(data)
  {
    if added != [] {
      AddedTotals(added[1..], data[1..]);
    }
  }

  /** Across a commit the totals change by those of the request's partitions less those
      of the rows whose key it deletes, old ones and its own alike. */
  lemma TotalsAcrossCommit(l: Ledger, x: string, tid: nat, n: nat, base: nat, req: Request, added: Rows, s: nat)
    requires Ok(l) && Writing(l, x, tid, n, base, req, added) && |added| == |req.added| && n <= s <= MAX_BIGINT
    ensures
      var before, after := QueryPartitions(l.db, x, s), QueryPartitions(Published(l, x, n, req, added).db, x, s);
      && before.Some? && after.Some?
      && var gone := Removed(before.value + added, KeySet(req.deleted));
      && |after.value| == |before.value| + |req.added| - |gone|
      && RowsTotal(after.value) == RowsTotal(before.value) + AddedRows(req.added) - RowsTotal(gone)
      && BytesTotal(after.value) == BytesTotal(before.value) + AddedBytes(req.added) - BytesTotal(gone)
      && (req.deleted == [] ==> gone == [])
  {
    StatsAcrossCommit(l, x, tid, n, base, req, added, s);
    var before := QueryPartitions(l.db, x, s).value;
    var after := QueryPartitions(Published(l, x, n, req, added).db, x, s).value;
    var gone := Removed(before + added, KeySet(req.deleted));
    SumInColumns(before);
    SumInColumns(after);
    SumInColumns(added);
    SumInColumns(gone);
    AddedTotals(added, req.added);
    if req.deleted == [] {
      NothingRemoved(before + added, KeySet(req.deleted));
    }
  }

  lemma {:induction false} NothingRemoved(rows: Rows, keys: set<string>)
    requires forall i :: 0 <= i < |rows| ==> rows[i].data.key !in keys
    ensures Removed(rows, keys) == []
  {
    if rows != [] {
      NothingRemoved(rows[..|rows| - 1], keys);
    }
  }

  /** A commit of one partition that deletes nothing raises the totals by one, by its row
      count and by its size. */
  lemma OneMorePartition(l: Ledger, x: string, tid: nat, n: nat, base: nat, req: Request, added: Rows, s: nat)
    requires Ok(l) && Writing(l, x, tid, n, base, req, added) && |added| == |req.added| == 1 && n <= s <= MAX_BIGINT
    requires req.deleted == []
    ensures
      var before, after := QueryPartitions(l.db, x, s), QueryPartitions(Published(l, x, n, req, added).db, x, s);
      && before.Some? && after.Some?
      && var t, t' := StatsOf(before.value).totals, StatsOf(after.value).totals;
      && t'.count == t.count + 1 && t'.rows == t.rows + req.added[0].rowCount
      && t'.bytes == t.bytes + req.added[0].sizeBytes
  {
    TotalsAcrossCommit(l, x, tid, n, base, req, added, s);
    SumInColumns(QueryPartitions(l.db, x, s).value);
    SumInColumns(QueryPartitions(Published(l, x, n, req, added).db, x, s).value);
    assert AddedRows(req.added[1..]) == AddedBytes(req.added[1..]) == 0;
  }
}
