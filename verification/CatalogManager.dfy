/** CatalogManager: create, alter, rename and drop, statement by statement with
    their transaction brackets, one call at a time under its table locks. */
module CatalogManager {
  import opened Options
  import opened Store
  import opened History
  import opened Catalog
  import opened PgClient
  import Statements

  /** The ledger an operation starts from, with the table ids that others have drawn, before its own. */
  function Before(l: Ledger, l': Ledger, op: Ddl): Ledger {
    var last := l'.db.lastTable;
    l.(db := l.db.(lastTable := if op.Create? && last > 0 then last - 1 else last))
  }

  /** All or nothing: without success no row has changed; with success the ledger is
      the operation's effect. When no statement fails, it succeeds iff it has one. */
  ghost predicate Outcome(l: Ledger, l': Ledger, faults: int, op: Ddl, ok: bool) {
    && 0 <= faults
    && (!ok ==> SameRows(l.db, l'.db) && l'.log == l.log && l'.roots == l.roots)
    && (ok ==> l.db.lastTable <= Before(l, l', op).db.lastTable && Effect(Before(l, l', op), op) == Some(l'))
    && (ok ==> faults == 0)
    && (faults == 0 ==> (ok <==> Effect(l, op).Some?))
  }

  lemma OutcomeOk(l: Ledger, l': Ledger, faults: int, op: Ddl, ok: bool)
    requires Ok(l) && Outcome(l, l', faults, op, ok)
    ensures Ok(l')
  {
    if ok {
      var t := Before(l, l', op).db.lastTable - l.db.lastTable;
      DrawnOk(l, t, 0, 0);
      assert Drawn(l, t, 0, 0) == Before(l, l', op);
      EffectOk(Before(l, l', op), op);
    } else {
      var db, db' := l.db, l'.db;
      DrawnOk(l, db'.lastTable - db.lastTable, db'.lastSnapshot - db.lastSnapshot,
        db'.lastPartition - db.lastPartition);
      assert Drawn(l, db'.lastTable - db.lastTable, db'.lastSnapshot - db.lastSnapshot,
        db'.lastPartition - db.lastPartition) == l';
    }
  }

  /** Success leaves what the operation says, in the columns of the tables; failure leaves
      every row; and it succeeds iff it is possible and no statement fails. */
  ghost predicate Effective(db: Store, db': Store, faults: int, op: Ddl, ok: bool) {
    && (if ok then Statements.Leaves(db, db', op) else db'.tables == db.tables && Statements.SameContents(db, db'))
    && (ok <==> faults == 0 && Statements.Possible(db, op))
  }

  lemma OutcomeEffective(l: Ledger, l': Ledger, faults: int, op: Ddl, ok: bool)
    requires Ok(l) && Outcome(l, l', faults, op, ok)
    ensures Effective(l.db, l'.db, faults, op, ok)
  {
    Statements.EffectLeaves(l, op);
    if ok {
      Statements.EffectLeaves(Before(l, l', op), op);
      SameLeaves(l.db, Before(l, l', op).db, l'.db, op);
    }
  }

  /** The table ids that others draw are no part of what an operation leaves. */
  lemma SameLeaves(a: Store, b: Store, db': Store, op: Ddl)
    requires b == a.(lastTable := b.lastTable) && Statements.Leaves(b, db', op)
    ensures Statements.Leaves(a, db', op)
  {
  }

  /** Readers find the renamed table, at every snapshot, under its new name only. */
  ghost predicate ReadsRenamed(db: Store, db': Store, from: string, to: string) {
    && GetTable(db', to) == GetTable(db, from) && GetTable(db', from) == None
    && forall snap: nat :: QueryPartitions(db', to, snap) == QueryPartitions(db, from, snap)
         && QueryPartitions(db', from, snap) == None
  }

  lemma OutcomeRenamed(l: Ledger, l': Ledger, faults: int, from: string, to: string)
    requires Ok(l) && Outcome(l, l', faults, Rename(from, to), true) && IsLive(l.db, from) && from != to
    ensures ReadsRenamed(l.db, l'.db, from, to)
  {
    var b := Before(l, l', Rename(from, to));
    OutcomeOk(l, l', faults, Rename(from, to), true);
    DrawnOk(l, b.db.lastTable - l.db.lastTable, 0, 0);
    assert Drawn(l, b.db.lastTable - l.db.lastTable, 0, 0) == b;
    forall snap: nat
      ensures QueryPartitions(l'.db, to, snap) == QueryPartitions(l.db, from, snap)
      ensures QueryPartitions(l'.db, from, snap) == None
    {
      Statements.RenamedReads(b, from, to, snap);
    }
    Statements.RenamedReads(b, from, to, 0);
  }

  class CatalogManager {
    const db: Database

    constructor (db: Database)
      ensures this.db == db
    {
      this.db := db;
    }

    method CreateTable(name: string, schemaJson: string, spec: string, props: string) returns (ok: bool)
      requires db.Quiet()
      modifies db
      ensures db.Quiet()
      ensures Outcome(old(db.View()), db.View(), db.faults - old(db.faults), Create(name, schemaJson, spec, props), ok)
      ensures Effective(old(db.store), db.store, db.faults - old(db.faults), Create(name, schemaJson, spec, props), ok)
    {
      ok := db.CreateTable(name, schemaJson, spec, props);
      OutcomeOk(old(db.View()), db.View(), db.faults - old(db.faults), Create(name, schemaJson, spec, props), ok);
      OutcomeEffective(old(db.View()), db.View(), db.faults - old(db.faults), Create(name, schemaJson, spec, props),
        ok);
    }

    /** SELECT, BEGIN, the statements, then COMMIT, or ROLLBACK when one failed. */
    method Evolve(name: string, schemaJson: string, summary: string) returns (ok: bool)
      requires db.saved.None? && !db.aborted
      modifies db
      ensures db.saved.None? && !db.aborted
      ensures Outcome(old(db.View()), db.View(), db.faults - old(db.faults), Alter(name, schemaJson, summary), ok)
    {
      var existing := db.GetTable(name);
      if existing.None? {
        return false;
      }
      db.Begin();
      ok := db.UpdateTableSchema(name, schemaJson, existing.value.schemaVersion + 1, summary);
      if ok {
        db.Commit();
      } else {
        db.Rollback();
      }
    }

    method AlterTableSchema(name: string, schemaJson: string, summary: string) returns (ok: bool)
      requires db.Quiet()
      modifies db
      ensures db.Quiet()
      ensures Outcome(old(db.View()), db.View(), db.faults - old(db.faults), Alter(name, schemaJson, summary), ok)
      ensures Effective(old(db.store), db.store, db.faults - old(db.faults), Alter(name, schemaJson, summary), ok)
    {
      ok := Evolve(name, schemaJson, summary);
      OutcomeOk(old(db.View()), db.View(), db.faults - old(db.faults), Alter(name, schemaJson, summary), ok);
      OutcomeEffective(old(db.View()), db.View(), db.faults - old(db.faults), Alter(name, schemaJson, summary), ok);
    }

    /** One statement, its own transaction. */
    method RenameTable(from: string, to: string) returns (ok: bool)
      requires db.Quiet()
      modifies db
      ensures db.Quiet()
      ensures Outcome(old(db.View()), db.View(), db.faults - old(db.faults), Rename(from, to), ok)
      ensures Effective(old(db.store), db.store, db.faults - old(db.faults), Rename(from, to), ok)
      ensures ok && IsLive(old(db.store), from) && from != to ==> ReadsRenamed(old(db.store), db.store, from, to)
    {
      ok := db.RenameTable(from, to);
      OutcomeOk(old(db.View()), db.View(), db.faults - old(db.faults), Rename(from, to), ok);
      OutcomeEffective(old(db.View()), db.View(), db.faults - old(db.faults), Rename(from, to), ok);
      if ok && IsLive(old(db.store), from) && from != to {
        OutcomeRenamed(old(db.View()), db.View(), db.faults - old(db.faults), from, to);
      }
    }

    method DropTable(name: string, purge: bool) returns (ok: bool)
      requires db.Quiet()
      modifies db
      ensures db.Quiet()
      ensures Outcome(old(db.View()), db.View(), db.faults - old(db.faults), Drop(name, purge), ok)
      ensures Effective(old(db.store), db.store, db.faults - old(db.faults), Drop(name, purge), ok)
    {
      ghost var l := db.View();
      db.Begin();
      ok := db.DropTable(name, purge);
      if ok {
        db.Commit();
        if purge {
          db.log := LogWithout(db.log, l.db.tables[name].id);
        }
      } else {
        db.Rollback();
      }
      OutcomeOk(l, db.View(), db.faults - old(db.faults), Drop(name, purge), ok);
      OutcomeEffective(l, db.View(), db.faults - old(db.faults), Drop(name, purge), ok);
    }
  }
}
