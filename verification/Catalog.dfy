/** The catalog's statements (create, alter, rename, drop) as transactions on
    the ledger: what they keep, and which tables they can change for a reader. */
module Catalog {
  import opened Options
  import opened Store
  import opened Replay
  import opened Chain
  import opened History

  datatype Ddl =
    | Create(name: string, schemaJson: string, spec: string, props: string)
    | Alter(name: string, schemaJson: string, summary: string)
    | Rename(name: string, to: string)
    | Drop(name: string, purge: bool)
  {
    /** The names an operation locks. */
    function Names(): set<string> {
      if Rename? then {name, to} else {name}
    }

    /** The name that a rename locks second. */
    function Second(): string {
      if Rename? then to else name
    }
  }

  function LogWithout(log: map<nat, Delta>, tid: nat): map<nat, Delta> {
    map n | n in log && log[n].tableId != tid :: log[n]
  }

  /** The committed effect of an operation, or None when it fails; a create draws the table id. */
  function Effect(l: Ledger, op: Ddl): Option<Ledger> {
    match op
    case Create(x, schemaJson, spec, props) =>
      (match CreateTable(l.db, x, l.db.lastTable + 1, schemaJson, spec, props)
       case None => None
       case Some(db) => Some(l.(db := db.(lastTable := l.db.lastTable + 1))))
    case Alter(x, schemaJson, summary) =>
      if !IsLive(l.db, x) then None
      else
        (match UpdateTableSchema(l.db, x, schemaJson, l.db.tables[x].schemaVersion + 1, summary)
         case None => None
         case Some(db) => Some(l.(db := db)))
    case Rename(x, y) =>
      (match RenameTable(l.db, x, y)
       case None => None
       case Some(db) => Some(l.(db := db)))
    case Drop(x, purge) =>
      (match DropTable(l.db, x, purge)
       case None => None
       case Some(db) => Some(Ledger(db, if purge then LogWithout(l.log, l.db.tables[x].id) else l.log, l.roots)))
  }

  // ---- Ids, sequences and pointers ----

  lemma RenamedShape(l: Ledger, x: string, y: string)
    requires Shape(l) && IsLive(l.db, x) && y !in l.db.tables
    ensures Shape(l.(db := RenameTable(l.db, x, y).value))
  {
    var db' := RenameTable(l.db, x, y).value;
    forall z | z in db'.tables ensures z == y || db'.tables[z] == l.db.tables[z] {
    }
  }

  lemma PurgedShape(l: Ledger, x: string)
    requires Shape(l) && IsLive(l.db, x)
    ensures Shape(Ledger(DropTable(l.db, x, true).value, LogWithout(l.log, l.db.tables[x].id), l.roots))
  {
  }

  lemma CreatedShape(l: Ledger, op: Ddl)
    requires Shape(l) && op.Create? && Effect(l, op).Some?
    ensures Shape(Effect(l, op).value)
  {
  }

  /** Changing other columns of tables keeps the order of ids and pointers. */
  lemma SameIdsShape(l: Ledger, l': Ledger)
    requires Shape(l) && l'.log == l.log
    requires l'.db == l.db.(tables := l'.db.tables, history := l'.db.history)
    requires forall x :: x in l'.db.tables ==> x in l.db.tables
    requires forall x :: x in l'.db.tables ==>
      l'.db.tables[x].id == l.db.tables[x].id && l'.db.tables[x].current == l.db.tables[x].current
    ensures Shape(l')
  {
  }

  lemma EffectShape(l: Ledger, op: Ddl)
    requires Shape(l) && Effect(l, op).Some?
    ensures Shape(Effect(l, op).value)
  {
    match op
    case Create(_, _, _, _) => CreatedShape(l, op);
    case Alter(x, schemaJson, summary) => SameIdsShape(l, Effect(l, op).value);
    case Rename(x, y) => if IsLive(l.db, x) && x != y { RenamedShape(l, x, y); }
    case Drop(x, purge) => if purge { PurgedShape(l, x); } else { SameIdsShape(l, Effect(l, op).value); }
  }

  // ---- Histories ----

  /** The name under which the table now called x was known before. */
  function Formerly(l: Ledger, op: Ddl, x: string): string {
    if op.Rename? && IsLive(l.db, op.name) && x == op.to then op.name else x
  }

  /** An operation leaves the snapshots of every surviving table as they were. */
  lemma EffectHistory(l: Ledger, op: Ddl, x: string)
    requires Shape(l) && Effect(l, op).Some? && x in Effect(l, op).value.db.tables
    ensures var db', was := Effect(l, op).value.db, Formerly(l, op, x);
      if op.Create? && x == op.name then
        db'.tables[x].current == 0 && Parents(db'.snapshots, db'.tables[x].id) == map[]
      else
        && was in l.db.tables && db'.tables[x].id == l.db.tables[was].id
        && db'.tables[x].current == l.db.tables[was].current
        && Parents(db'.snapshots, db'.tables[x].id) == Parents(l.db.snapshots, l.db.tables[was].id)
  {
    var db', was := Effect(l, op).value.db, Formerly(l, op, x);
    match op
    case Create(y, _, _, _) =>
      if x == y {
        assert forall n :: n in db'.snapshots ==> n in l.log && db'.snapshots[n].tableId != db'.tables[x].id;
      }
    case Alter(_, _, _) =>
    case Rename(_, _) =>
    case Drop(y, purge) =>
      if purge {
        assert l.db.tables[x].id != l.db.tables[y].id;
      }
  }

  lemma EffectHistories(l: Ledger, op: Ddl)
    requires Shape(l) && HistoriesOk(l.db, l.roots) && Effect(l, op).Some?
    ensures HistoriesOk(Effect(l, op).value.db, l.roots)
  {
    var db' := Effect(l, op).value.db;
    forall x | x in db'.tables ensures HistoryOk(db', l.roots, x) {
      EffectHistory(l, op, x);
      if !(op.Create? && x == op.name) {
        assert HistoryOk(l.db, l.roots, Formerly(l, op, x));
      }
    }
  }

  // ---- Reads replay the log ----

  lemma PurgedScan(l: Ledger, op: Ddl, tid: nat, s: nat)
    requires op.Drop? && op.purge && IsLive(l.db, op.name)
    ensures
      var db' := DropTable(l.db, op.name, true).value;
      Scan(db'.partitions, tid, s, 0, l.db.lastPartition) ==
      if tid == l.db.tables[op.name].id then [] else Scan(l.db.partitions, tid, s, 0, l.db.lastPartition)
  {
    var q := DropTable(l.db, op.name, true).value.partitions;
    if tid == l.db.tables[op.name].id {
      ScanNothing(q, tid, s, 0, l.db.lastPartition);
    } else {
      ScanSame(q, l.db.partitions, tid, s, s, 0, l.db.lastPartition);
    }
  }

  lemma PurgedRefines(l: Ledger, op: Ddl)
    requires Ok(l) && op.Drop? && op.purge && Effect(l, op).Some?
    ensures Refines(Effect(l, op).value.db.partitions, l.db.lastPartition, Effect(l, op).value.log)
  {
    var l', id := Effect(l, op).value, l.db.tables[op.name].id;
    forall tid: nat, s: nat ensures Scan(l'.db.partitions, tid, s, 0, l.db.lastPartition) == Replayed(l'.log, tid, s) {
      PurgedScan(l, op, tid, s);
      if tid == id {
        ReplayedFurther(l'.log, tid, 0, s);
        assert 0 !in l'.log;
      } else {
        assert Scan(l.db.partitions, tid, s, 0, l.db.lastPartition) == Replayed(l.log, tid, s);
        ReplayedSame(l.log, l'.log, tid, s);
      }
    }
  }

  lemma EffectRefines(l: Ledger, op: Ddl)
    requires Ok(l) && Effect(l, op).Some?
    ensures var l' := Effect(l, op).value; Refines(l'.db.partitions, l'.db.lastPartition, l'.log)
  {
    if op.Drop? && op.purge {
      PurgedRefines(l, op);
    } else {
      UnchangedRows(l, op);
    }
  }

  lemma UnchangedRows(l: Ledger, op: Ddl)
    requires Effect(l, op).Some? && !(op.Drop? && op.purge)
    ensures var l' := Effect(l, op).value;
      l'.db.partitions == l.db.partitions && l'.db.lastPartition == l.db.lastPartition && l'.log == l.log
  {
  }

  /** Every catalog operation keeps the ledger in order. */
  lemma EffectOk(l: Ledger, op: Ddl)
    requires Ok(l) && Effect(l, op).Some?
    ensures Ok(Effect(l, op).value)
  {
    var l' := Effect(l, op).value;
    assert Shape(l') by { EffectShape(l, op); }
    assert HistoriesOk(l'.db, l'.roots) by {
      EffectHistories(l, op);
      SameRoots(l, op);
    }
    assert Refines(l'.db.partitions, l'.db.lastPartition, l'.log) by { EffectRefines(l, op); }
  }

  lemma SameRoots(l: Ledger, op: Ddl)
    requires Effect(l, op).Some?
    ensures Effect(l, op).value.roots == l.roots
  {
  }

  lemma PurgedQuery(db: Store, x: string, y: string, s: nat)
    requires TablesOk(db) && IsLive(db, x) && y != x
    ensures QueryPartitions(DropTable(db, x, true).value, y, s) == QueryPartitions(db, y, s)
  {
    if IsLive(db, y) {
      var q, id := DropTable(db, x, true).value.partitions, db.tables[y].id;
      ScanSame(q, db.partitions, id, s, s, 0, db.lastPartition);
    }
  }

  /** An operation changes nothing for a reader of another name, and an alter
      changes nothing for any reader. */
  lemma EffectQuery(l: Ledger, op: Ddl, x: string, s: nat)
    requires TablesOk(l.db) && Effect(l, op).Some?
    requires x !in op.Names() || op.Alter?
    ensures QueryPartitions(Effect(l, op).value.db, x, s) == QueryPartitions(l.db, x, s)
    ensures TableId(Effect(l, op).value.db, x) == TableId(l.db, x)
  {
    match op
    case Create(_, _, _, _) =>
    case Alter(_, _, _) =>
    case Rename(_, _) =>
    case Drop(y, purge) => if purge { PurgedQuery(l.db, y, x, s); }
  }

  /** A name an operation creates or renames onto was not readable before. */
  lemma EffectTarget(l: Ledger, op: Ddl, x: string, s: nat)
    requires Effect(l, op).Some?
    requires (op.Create? && x == op.name) || (op.Rename? && x == op.to && op.to != op.name && IsLive(l.db, op.name))
    ensures QueryPartitions(l.db, x, s) == None
  {
  }
}
