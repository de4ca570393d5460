/** PgClient's statements in the order the managers send them: a database seen
    through one connection, with at most one open transaction. Any statement may
    fail; one that fails inside a transaction aborts it, and every further one
    fails until ROLLBACK. */
module PgClient {
  import opened Options
  import opened Store
  import Sql = Store
  import opened History
  import Statements

  /** b is a, with sequences that may have handed out more ids. */
  ghost predicate SameRows(a: Store, b: Store) {
    && b == a.(lastTable := b.lastTable, lastSnapshot := b.lastSnapshot, lastPartition := b.lastPartition)
    && a.lastTable <= b.lastTable && a.lastSnapshot <= b.lastSnapshot && a.lastPartition <= b.lastPartition
  }

  class Database {
    var store: Store
    /** What ROLLBACK brings back, while a transaction is open. */
    var saved: Option<Store>
    var aborted: bool
    /** The number of statements that have failed so far. */
    ghost var faults: nat
    ghost var log: map<nat, Delta>
    ghost var roots: map<nat, nat>

    ghost function View(): Ledger
      reads this
    {
      Ledger(store, log, roots)
    }

    /** Outside a transaction the store is one that committed transactions built. */
    ghost predicate Quiet()
      reads this
    {
      saved.None? && !aborted && Ok(View())
    }

    constructor ()
      ensures Quiet() && View() == START && faults == 0
    {
      store, saved, aborted, faults := EMPTY, None, false, 0;
      log, roots := map[], map[];
      new;
      StartOk();
    }

    /** Whether the next statement works. */
    method Works() returns (ok: bool)
      modifies this`aborted, this`faults
      ensures ok ==> !aborted && faults == old(faults)
      ensures !ok ==> faults == old(faults) + 1 && aborted == (old(aborted) || saved.Some?)
      ensures ok ==> !old(aborted)
    {
      ok := !aborted;
      if * {
        ok := false;
      }
      if !ok {
        aborted := aborted || saved.Some?;
        faults := faults + 1;
      }
    }

    method Begin()
      requires saved.None? && !aborted
      modifies this`saved
      ensures saved == Some(store)
    {
      saved := Some(store);
    }

    method Commit()
      requires saved.Some? && !aborted
      modifies this`saved
      ensures saved.None?
    {
      saved := None;
    }

    /** Rows go back, sequences do not. */
    method Rollback()
      requires saved.Some?
      requires saved.value.lastTable <= store.lastTable && saved.value.lastSnapshot <= store.lastSnapshot
      requires saved.value.lastPartition <= store.lastPartition
      modifies this`store, this`saved, this`aborted
      ensures saved.None? && !aborted && SameRows(old(saved).value, store)
      ensures store.lastTable == old(store).lastTable && store.lastSnapshot == old(store).lastSnapshot
      ensures store.lastPartition == old(store).lastPartition
    {
      store := saved.value.(
        lastTable := store.lastTable, lastSnapshot := store.lastSnapshot, lastPartition := store.lastPartition);
      saved, aborted := None, false;
    }

    // ---- Queries ----

    method GetTableId(name: string) returns (id: Option<nat>)
      modifies this`aborted, this`faults
      ensures Told(old(aborted), old(faults))
      ensures id == if faults == old(faults) then TableId(store, name) else None
    {
      var ok := Works();
      id := if ok then TableId(store, name) else None;
    }

    /** What every statement says about faults. */
    ghost predicate Told(wasAborted: bool, before: nat)
      reads this
    {
      && before <= faults
      && (faults == before ==> !aborted && !wasAborted)
      && (faults > before ==> aborted == (wasAborted || saved.Some?))
    }

    method GetTable(name: string) returns (row: Option<TableRow>)
      modifies this`aborted, this`faults
      ensures Told(old(aborted), old(faults))
      ensures row == if faults == old(faults) then Sql.GetTable(store, name) else None
      ensures row == if faults == old(faults) && name in store.tables && !store.tables[name].isDeleted
        then Some(store.tables[name]) else None
    {
      var ok := Works();
      row := if ok then Sql.GetTable(store, name) else None;
    }

    /** A SELECT that fails reads as 0, like a table without snapshots. */
    method GetCurrentSnapshot(name: string) returns (n: nat)
      modifies this`aborted, this`faults
      ensures Told(old(aborted), old(faults)) && faults <= old(faults) + 1
      ensures n == if faults == old(faults) then CurrentSnapshot(store, name) else 0
    {
      var ok := Works();
      n := if ok then CurrentSnapshot(store, name) else 0;
    }

    method QueryPartitions(name: string, snap: nat) returns (rows: Option<seq<PartitionRow>>)
      modifies this`aborted, this`faults
      ensures Told(old(aborted), old(faults))
      ensures rows.Some? ==> faults == old(faults)
      ensures faults == old(faults) ==> rows == Sql.QueryPartitions(store, name, snap)
      ensures rows.Some? && PartitionsOk(store) ==>
        Statements.IsSelected(store, store.tables[name].id, snap, rows.value)
    {
      var id := GetTableId(name);
      if id.None? {
        return None;
      }
      var ok := Works();
      if !ok || snap > MAX_BIGINT {
        return None;
      }
      if PartitionsOk(store) {
        Statements.SelectedRows(store, name, snap);
      }
      return Some(Scan(store.partitions, id.value, snap, 0, store.lastPartition));
    }

    method QueryPartitionsPaged(name: string, snap: nat, limit: int, last: int)
      returns (rows: Option<seq<PartitionRow>>)
      modifies this`aborted, this`faults
      ensures Told(old(aborted), old(faults))
      ensures rows.Some? ==> faults == old(faults)
      ensures faults == old(faults) ==> rows == QueryPage(store, name, snap, limit, last)
      ensures rows.Some? && PartitionsOk(store) ==>
        && |rows.value| <= (if limit > 0 then limit else 1000)
        && exists k :: Statements.IsPage(rows.value, Sql.QueryPartitions(store, name, snap).value, last, limit, k)
    {
      var id := GetTableId(name);
      if id.None? {
        return None;
      }
      var ok := Works();
      if !ok || snap > MAX_BIGINT {
        return None;
      }
      var after := if last > 0 then last else 0;
      if PartitionsOk(store) {
        ghost var k := Statements.PagedRows(store, name, snap, limit, last);
      }
      return Some(Take(Scan(store.partitions, id.value, snap, after, store.lastPartition),
                       if limit > 0 then limit else 1000));
    }

    // ---- Statements of a commit ----

    /** 0 when the table is missing or the INSERT fails. */
    method InsertSnapshot(name: string, parent: nat, operation: string, added: nat, deleted: nat) returns (n: nat)
      modifies this`store, this`aborted, this`faults
      ensures Told(old(aborted), old(faults))
      ensures n == 0 ==> SameRows(old(store), store)
      ensures n != 0 ==> IsLive(old(store), name) && n > old(store).lastSnapshot && faults == old(faults)
      ensures n != 0 ==> store == old(store).(
        lastSnapshot := n,
        snapshots := old(store).snapshots[
          n := SnapshotRow(old(store).tables[name].id, parent, operation, added, deleted)])
      ensures faults == old(faults) ==> (n != 0 <==> IsLive(old(store), name))
    {
      var id := GetTableId(name);
      if id.None? {
        return 0;
      }
      var gap: nat :| 0 <= gap;
      var ok := Works();
      if !ok {
        store := store.(lastSnapshot := store.lastSnapshot + gap);
        return 0;
      }
      n := store.lastSnapshot + gap + 1;
      store := store.(
        lastSnapshot := n, snapshots := store.snapshots[n := SnapshotRow(id.value, parent, operation, added, deleted)]);
    }

    method InsertPartition(name: string, snap: nat, data: PartitionData) returns (ok: bool)
      modifies this`store, this`aborted, this`faults
      ensures Told(old(aborted), old(faults))
      ensures !ok ==> SameRows(old(store), store)
      ensures ok ==> IsLive(old(store), name) && store.lastPartition > old(store).lastPartition && faults == old(faults)
      ensures ok ==> store == old(store).(
        lastPartition := store.lastPartition,
        partitions := WithRow(old(store).partitions,
          NewRow(store.lastPartition, old(store).tables[name].id, snap, data)))
      ensures ok ==>
        && store.lastPartition in store.partitions
        && var t := store.partitions[store.lastPartition];
        && !t.isDeleted && t.row.id == store.lastPartition && t.row.tableId == old(store).tables[name].id
        && t.row.snapshotId == snap && Carries(t.row, data)
      ensures faults == old(faults) ==> ok == IsLive(old(store), name)
    {
      var id := GetTableId(name);
      if id.None? {
        return false;
      }
      var gap: nat :| 0 <= gap;
      ok := Works();
      if !ok {
        store := store.(lastPartition := store.lastPartition + gap);
        return;
      }
      var p := store.lastPartition + gap + 1;
      store := store.(lastPartition := p, partitions := WithRow(store.partitions, NewRow(p, id.value, snap, data)));
    }

    method MarkPartitionDeleted(name: string, key: string, snap: nat) returns (ok: bool)
      modifies this`store, this`aborted, this`faults
      ensures Told(old(aborted), old(faults))
      ensures !ok ==> store == old(store)
      ensures ok ==> IsLive(old(store), name) && faults == old(faults)
      ensures ok ==>
        store == old(store).(partitions := MarkDeleted(old(store).partitions, old(store).tables[name].id, {key}, snap))
      ensures faults == old(faults) ==> ok == IsLive(old(store), name)
    {
      var id := GetTableId(name);
      if id.None? {
        return false;
      }
      ok := Works();
      if ok {
        store := store.(partitions := MarkDeleted(store.partitions, id.value, {key}, snap));
      }
    }

    /** No row matched is still a success. */
    method UpdateTableSnapshot(name: string, snap: nat) returns (ok: bool)
      modifies this`store, this`aborted, this`faults
      ensures Told(old(aborted), old(faults))
      ensures !ok ==> store == old(store)
      ensures ok == (faults == old(faults))
      ensures ok ==> store == if IsLive(old(store), name)
        then old(store).(tables := old(store).tables[name := old(store).tables[name].(current := snap)]) else old(store)
    {
      ok := Works();
      if ok && IsLive(store, name) {
        store := store.(tables := store.tables[name := store.tables[name].(current := snap)]);
      }
    }

    // ---- Statements of the catalog ----

    method CreateTable(name: string, schemaJson: string, spec: string, props: string) returns (ok: bool)
      modifies this`store, this`aborted, this`faults
      ensures Told(old(aborted), old(faults))
      ensures !ok ==> SameRows(old(store), store)
      ensures ok ==> faults == old(faults) && store.lastTable > old(store).lastTable
      ensures ok ==>
        Sql.CreateTable(old(store).(lastTable := store.lastTable), name, store.lastTable, schemaJson, spec, props) ==
          Some(store)
      ensures faults == old(faults) ==> ok == (name !in old(store).tables)
    {
      // The sequence moves on before the conflict is found.
      var gap: nat :| 0 <= gap;
      store := store.(lastTable := store.lastTable + gap);
      ok := Works();
      if ok {
        store := store.(lastTable := store.lastTable + 1);
        var created := Sql.CreateTable(store, name, store.lastTable, schemaJson, spec, props);
        if created.None? {
          return false;
        }
        store := created.value;
      }
    }

    /** The UPDATE, the SELECT of the id, the INSERT into the history. */
    method UpdateTableSchema(name: string, schemaJson: string, version: int, summary: string) returns (ok: bool)
      modifies this`store, this`aborted, this`faults
      ensures Told(old(aborted), old(faults))
      ensures ok ==>
        faults == old(faults) && Sql.UpdateTableSchema(old(store), name, schemaJson, version, summary) == Some(store)
      ensures faults == old(faults) ==> ok == IsLive(old(store), name)
      ensures SameRows(old(store), store.(tables := old(store).tables, history := old(store).history))
    {
      ok := Works();
      if !ok {
        return;
      }
      if IsLive(store, name) {
        var row := store.tables[name].(schemaJson := schemaJson, schemaVersion := version);
        store := store.(tables := store.tables[name := row]);
      }
      var id := GetTableId(name);
      if id.None? {
        return false;
      }
      ok := Works();
      if ok {
        store := store.(history := store.history + [HistoryRow(id.value, version, schemaJson, summary)]);
      }
    }

    method RenameTable(from: string, to: string) returns (ok: bool)
      requires saved.None?
      modifies this`store, this`aborted, this`faults
      ensures Told(old(aborted), old(faults))
      ensures ok ==> faults == old(faults) && Sql.RenameTable(old(store), from, to) == Some(store)
      ensures !ok ==> store == old(store)
      ensures faults == old(faults) ==> ok == Sql.RenameTable(old(store), from, to).Some?
    {
      ok := Works();
      if ok {
        var renamed := Sql.RenameTable(store, from, to);
        if renamed.None? {
          return false;
        }
        store := renamed.value;
      }
    }

    /** The first three DELETEs of a purge are not checked; it is the aborted
        transaction that makes the last one fail after them. */
    method DropTable(name: string, purge: bool) returns (ok: bool)
      requires saved.Some?
      modifies this`store, this`aborted, this`faults
      ensures Told(old(aborted), old(faults))
      ensures ok ==> faults == old(faults) && Sql.DropTable(old(store), name, purge) == Some(store)
      ensures faults == old(faults) ==> ok == IsLive(old(store), name)
      ensures store.lastTable == old(store).lastTable && store.lastSnapshot == old(store).lastSnapshot
      ensures store.lastPartition == old(store).lastPartition
    {
      if !purge {
        ok := Works();
        if ok {
          if !IsLive(store, name) {
            return false;
          }
          store := store.(tables := store.tables[name := store.tables[name].(isDeleted := true)]);
        }
        return;
      }
      var found := GetTableId(name);
      if found.None? {
        return false;
      }
      var id := found.value;
      var one := Works();
      if one {
        store := store.(partitions :=
          map p | p in store.partitions && store.partitions[p].row.tableId != id :: store.partitions[p]);
      }
      var two := Works();
      if two {
        store := store.(snapshots :=
          map s | s in store.snapshots && store.snapshots[s].tableId != id :: store.snapshots[s]);
      }
      var three := Works();
      if three {
        store := store.(history := HistoryWithout(store.history, id));
      }
      ok := Works();
      if ok {
        store := store.(tables := map x | x in store.tables && x != name :: store.tables[x]);
      }
    }
  }
}
