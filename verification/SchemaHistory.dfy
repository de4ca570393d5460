/** The schema history of every table across any run. */
module SchemaHistory {
  import opened Options
  import opened Store
  import opened History
  import opened Catalog
  import opened Serving
  import opened Invariant

  /** The history rows of one table, in insertion order. */
  function HistoryOf(h: seq<HistoryRow>, tid: nat): seq<HistoryRow> {
    if h == [] then []
    else HistoryOf(h[..|h| - 1], tid) + if h[|h| - 1].tableId == tid then [h[|h| - 1]] else []
  }

  /** Versions 2 to version once each in order, the last holding the current schema. */
  ghost predicate Tracks(rows: seq<HistoryRow>, version: int, schemaJson: string) {
    && 1 <= version == |rows| + 1
    && (forall i :: 0 <= i < |rows| ==> rows[i].version == i + 2)
    && (rows != [] ==> rows[|rows| - 1].schemaJson == schemaJson)
  }

  ghost predicate SchemaOk(db: Store, x: string)
    requires x in db.tables
  {
    Tracks(HistoryOf(db.history, db.tables[x].id), db.tables[x].schemaVersion, db.tables[x].schemaJson)
  }

  ghost predicate SchemasOk(db: Store) {
    && (forall x :: x in db.tables ==> SchemaOk(db, x))
    && (forall i :: 0 <= i < |db.history| ==> db.history[i].tableId <= db.lastTable)
  }

  lemma {:induction false} NoHistory(h: seq<HistoryRow>, tid: nat)
    requires forall i :: 0 <= i < |h| ==> h[i].tableId != tid
    ensures HistoryOf(h, tid) == []
  {
    if h != [] {
      NoHistory(h[..|h| - 1], tid);
    }
  }

  lemma {:induction false} HistoryConcat(a: seq<HistoryRow>, b: seq<HistoryRow>, tid: nat)
    ensures HistoryOf(a + b, tid) == HistoryOf(a, tid) + HistoryOf(b, tid)
  {
    if b == [] {
      assert a + b == a;
    } else {
      HistoryConcat(a, b[..|b| - 1], tid);
      assert (a + b)[..|a + b| - 1] == a + b[..|b| - 1];
    }
  }

  lemma {:induction false} HistoryRows(h: seq<HistoryRow>, tid: nat)
    ensures forall i :: 0 <= i < |HistoryOf(h, tid)| ==>
      HistoryOf(h, tid)[i] in h && HistoryOf(h, tid)[i].tableId == tid
  {
    if h != [] {
      HistoryRows(h[..|h| - 1], tid);
    }
  }

  /** Purging one table's history leaves every other table's as it was. */
  lemma {:induction false} PurgedHistory(h: seq<HistoryRow>, gone: nat, tid: nat)
    ensures HistoryOf(HistoryWithout(h, gone), tid) == if tid == gone then [] else HistoryOf(h, tid)
    ensures forall i :: 0 <= i < |HistoryWithout(h, gone)| ==> HistoryWithout(h, gone)[i] in h
  {
    if h != [] {
      PurgedHistory(h[1..], gone, tid);
      assert h == [h[0]] + h[1..];
      HistoryConcat([h[0]], h[1..], tid);
      if h[0].tableId != gone {
        HistoryConcat([h[0]], HistoryWithout(h[1..], gone), tid);
      }
    }
  }

  /** What an operation does to one table's history: an alter of it appends its next
      version, a purge of it removes all, everything else leaves it alone. */
  lemma EffectOnHistory(l: Ledger, op: Ddl, tid: nat)
    requires Effect(l, op).Some?
    ensures
      var h, h' := HistoryOf(l.db.history, tid), HistoryOf(Effect(l, op).value.db.history, tid);
      if op.Alter? && l.db.tables[op.name].id == tid then
        h' == h + [HistoryRow(tid, l.db.tables[op.name].schemaVersion + 1, op.schemaJson, op.summary)]
      else if op.Drop? && op.purge && l.db.tables[op.name].id == tid then h' == []
      else h' == h
  {
    match op
    case Create(_, _, _, _) =>
    case Alter(x, schemaJson, summary) =>
      HistoryConcat(l.db.history,
        [HistoryRow(l.db.tables[x].id, l.db.tables[x].schemaVersion + 1, schemaJson, summary)], tid);
    case Rename(_, _) =>
    case Drop(x, purge) => if purge { PurgedHistory(l.db.history, l.db.tables[x].id, tid); }
  }

  lemma EffectRange(l: Ledger, op: Ddl)
    requires TablesOk(l.db) && SchemasOk(l.db) && Effect(l, op).Some?
    ensures
      var db' := Effect(l, op).value.db;
      forall i :: 0 <= i < |db'.history| ==> db'.history[i].tableId <= db'.lastTable
  {
    if op.Drop? && op.purge {
      PurgedHistory(l.db.history, l.db.tables[op.name].id, 0);
    }
  }

  lemma TracksMore(rows: seq<HistoryRow>, version: int, schemaJson: string, row: HistoryRow)
    requires Tracks(rows, version, schemaJson) && row.version == version + 1
    ensures Tracks(rows + [row], version + 1, row.schemaJson)
  {
  }

  lemma AlteredSchema(l: Ledger, op: Ddl)
    requires SchemasOk(l.db) && op.Alter? && Effect(l, op).Some?
    ensures SchemaOk(Effect(l, op).value.db, op.name)
  {
    var t := l.db.tables[op.name];
    assert SchemaOk(l.db, op.name);
    EffectOnHistory(l, op, t.id);
    TracksMore(HistoryOf(l.db.history, t.id), t.schemaVersion, t.schemaJson,
      HistoryRow(t.id, t.schemaVersion + 1, op.schemaJson, op.summary));
  }

  lemma CreatedSchema(l: Ledger, op: Ddl)
    requires SchemasOk(l.db) && op.Create? && Effect(l, op).Some?
    ensures SchemaOk(Effect(l, op).value.db, op.name)
  {
    NoHistory(l.db.history, l.db.lastTable + 1);
  }

  /** A table that an operation neither creates nor alters keeps its schema and its history. */
  lemma OtherSchema(l: Ledger, op: Ddl, x: string)
    requires TablesOk(l.db) && Effect(l, op).Some? && x in Effect(l, op).value.db.tables
    requires !(op.Create? && x == op.name) && !(op.Alter? && x == op.name)
    ensures
      var was, t := Formerly(l, op, x), Effect(l, op).value.db.tables[x];
      && was in l.db.tables && t.id == l.db.tables[was].id && t.schemaVersion == l.db.tables[was].schemaVersion
      && t.schemaJson == l.db.tables[was].schemaJson
      && (op.Alter? || (op.Drop? && op.purge) ==> l.db.tables[op.name].id != t.id)
  {
  }

  lemma EffectSchema(l: Ledger, op: Ddl, x: string)
    requires TablesOk(l.db) && SchemasOk(l.db) && Effect(l, op).Some? && x in Effect(l, op).value.db.tables
    ensures SchemaOk(Effect(l, op).value.db, x)
  {
    if op.Create? && x == op.name {
      CreatedSchema(l, op);
    } else if op.Alter? && x == op.name {
      AlteredSchema(l, op);
    } else {
      OtherSchema(l, op, x);
      EffectOnHistory(l, op, Effect(l, op).value.db.tables[x].id);
      assert SchemaOk(l.db, Formerly(l, op, x));
    }
  }

  lemma EffectSchemas(l: Ledger, op: Ddl)
    requires TablesOk(l.db) && SchemasOk(l.db) && Effect(l, op).Some?
    ensures SchemasOk(Effect(l, op).value.db)
  {
    EffectRange(l, op);
    forall x | x in Effect(l, op).value.db.tables ensures SchemaOk(Effect(l, op).value.db, x) {
      EffectSchema(l, op, x);
    }
  }

  ghost predicate SameSchemas(db: Store, db': Store) {
    && db'.history == db.history && db'.lastTable >= db.lastTable
    && forall x :: x in db'.tables ==>
      x in db.tables && db'.tables[x] == db.tables[x].(current := db'.tables[x].current)
  }

  lemma SameSchemasOk(db: Store, db': Store)
    requires SchemasOk(db) && SameSchemas(db, db')
    ensures SchemasOk(db')
  {
    forall x | x in db'.tables ensures SchemaOk(db', x) {
      assert SchemaOk(db, x);
    }
  }

  /** Steps outside the catalog do not touch schemas or history. */
  lemma OtherStepsKeepSchemas(s: State, a: Action)
    requires Inv(s) && Enabled(s, a) && (a.Go? ==> !s.pcs[a.i].DdlRun?)
    ensures SameSchemas(s.l.db, Next(s, a).l.db)
  {
    if Writes(s, a) {
      assert LocalOk(s.l, s.pcs[a.i]);
      PublishingNext(s, a.i, a.gap);
    } else {
      var snapshots, partitions := QuietNext(s, a);
    }
  }

  lemma DdlKeepsSchemas(s: State, i: nat, ok: bool, gap: nat)
    requires TablesOk(s.l.db) && i < |s.pcs| && s.pcs[i].DdlRun? && SchemasOk(s.l.db)
    ensures Enabled(s, Go(i, ok, gap)) && SchemasOk(Next(s, Go(i, ok, gap)).l.db)
  {
    var l := Drawn(s.l, gap, 0, 0);
    DdlRunNext(s, i, ok, gap);
    SameSchemasOk(s.l.db, l.db);
    if ok && Effect(l, s.pcs[i].op).Some? {
      EffectSchemas(l, s.pcs[i].op);
    }
  }

  lemma StepSchemas(s: State, a: Action)
    requires Inv(s) && Enabled(s, a) && SchemasOk(s.l.db)
    ensures SchemasOk(Next(s, a).l.db)
  {
    if a.Go? && s.pcs[a.i].DdlRun? {
      DdlKeepsSchemas(s, a.i, a.ok, a.gap);
    } else {
      OtherStepsKeepSchemas(s, a);
      SameSchemasOk(s.l.db, Next(s, a).l.db);
    }
  }

  /** After any run every table's history holds versions 2 to its current version
      once each, in order, and the newest entry is its current schema. */
  lemma {:induction false} SchemasTracked(s: State, acts: seq<Action>)
    requires Inv(s) && SchemasOk(s.l.db) && Runs(s, acts)
    ensures SchemasOk(After(s, acts).l.db)
    decreases |acts|
  {
    if acts != [] {
      StepInv(s, acts[0]);
      StepSchemas(s, acts[0]);
      SchemasTracked(Next(s, acts[0]), acts[1..]);
    }
  }

  lemma SchemasFromStart(threads: nat, capacity: nat, connections: nat, acts: seq<Action>)
    requires capacity >= 1 && Runs(Start(threads, capacity, connections), acts)
    ensures SchemasOk(After(Start(threads, capacity, connections), acts).l.db)
  {
    StartInv(threads, capacity, connections);
    SchemasTracked(Start(threads, capacity, connections), acts);
  }

  /** Entries never change: a step keeps a table's history as a prefix, unless it purges the table. */
  lemma HistoryOnlyGrows(s: State, a: Action, tid: nat)
    requires Inv(s) && Enabled(s, a) && SchemasOk(s.l.db)
    requires exists x :: x in Next(s, a).l.db.tables && Next(s, a).l.db.tables[x].id == tid
    ensures HistoryOf(s.l.db.history, tid) <= HistoryOf(Next(s, a).l.db.history, tid)
  {
    if a.Go? && s.pcs[a.i].DdlRun? {
      DdlRunNext(s, a.i, a.ok, a.gap);
      if a.ok && Effect(Drawn(s.l, a.gap, 0, 0), s.pcs[a.i].op).Some? {
        EffectGrows(Drawn(s.l, a.gap, 0, 0), s.pcs[a.i].op, tid);
      }
    } else {
      OtherStepsKeepSchemas(s, a);
    }
  }

  lemma EffectGrows(l: Ledger, op: Ddl, tid: nat)
    requires TablesOk(l.db) && Effect(l, op).Some?
    requires var db' := Effect(l, op).value.db; exists x :: x in db'.tables && db'.tables[x].id == tid
    ensures HistoryOf(l.db.history, tid) <= HistoryOf(Effect(l, op).value.db.history, tid)
  {
    EffectOnHistory(l, op, tid);
  }

  // ---- Looking a version up ----

  function FindVersion(rows: seq<HistoryRow>, version: int): Option<HistoryRow> {
    if rows == [] then None
    else if rows[0].version == version then Some(rows[0])
    else FindVersion(rows[1..], version)
  }

  /** get_schema_at_version: the table's row with that version number. */
  function SchemaAtVersion(db: Store, x: string, version: int): Option<HistoryRow> {
    if IsLive(db, x) then FindVersion(HistoryOf(db.history, db.tables[x].id), version) else None
  }

  lemma {:induction false} FindVersionIn(rows: seq<HistoryRow>, low: int, version: int)
    requires forall i :: 0 <= i < |rows| ==> rows[i].version == low + i
    ensures FindVersion(rows, version) ==
            if low <= version < low + |rows| then Some(rows[version - low]) else None
  {
    if rows != [] {
      FindVersionIn(rows[1..], low + 1, version);
    }
  }

  /** Exactly versions 2 to the current one of a table that is not deleted can be looked
      up; version 1, the schema the table was created with, never can. */
  lemma VersionsOnRecord(db: Store, x: string, version: int)
    requires SchemasOk(db)
    ensures
      var r := SchemaAtVersion(db, x, version);
      && (r.Some? <==> x in db.tables && !db.tables[x].isDeleted && 2 <= version <= db.tables[x].schemaVersion)
      && (r.Some? ==> r.value in db.history && r.value.tableId == db.tables[x].id && r.value.version == version)
      && (r.Some? && version == db.tables[x].schemaVersion ==> r.value.schemaJson == db.tables[x].schemaJson)
  {
    if IsLive(db, x) {
      var rows := HistoryOf(db.history, db.tables[x].id);
      assert SchemaOk(db, x);
      FindVersionIn(rows, 2, version);
      HistoryRows(db.history, db.tables[x].id);
    }
  }
}
