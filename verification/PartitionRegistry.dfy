/** PartitionRegistry: commits, cached and paged reads and statistics over the
    database, the cache and the connection pool, one call at a time under its
    table lock. */
module PartitionRegistry {
  import opened Options
  import opened CacheKeys
  import opened Recency
  import opened LruCache
  import opened Store
  import opened Replay
  import opened History
  import opened PgClient
  import opened MvccManager
  import opened Statistics
  import P = ConnectionPool
  import Sql = Store
  import Invariant
  import Reads
  import Requests
  import Serving
  import Statements

  type Rows = seq<PartitionRow>

  datatype CommitResult = CommitResult(success: bool, snapshotId: nat)

  const FAILED: CommitResult := CommitResult(false, 0)

  /** Every cached value is what the query would return now. */
  ghost predicate Current(db: Store, es: seq<Entry<string, Rows>>) {
    forall e, x, snap: nat :: e in es && e.key == CacheKey(x, snap) ==>
      Sql.QueryPartitions(db, x, snap) == Some(e.value)
  }

  /** The ledger with the ids that a transaction has drawn. */
  function DrawnUpTo(l: Ledger, st: Store): Ledger {
    l.(db := l.db.(lastTable := st.lastTable, lastSnapshot := st.lastSnapshot, lastPartition := st.lastPartition))
  }

  ghost predicate MovedOn(a: Store, b: Store) {
    a.lastTable <= b.lastTable && a.lastSnapshot <= b.lastSnapshot && a.lastPartition <= b.lastPartition
  }

  lemma DrawnUpToOk(l: Ledger, st: Store)
    requires Ok(l) && MovedOn(l.db, st)
    ensures Ok(DrawnUpTo(l, st))
    ensures forall x, s: nat :: Sql.QueryPartitions(DrawnUpTo(l, st).db, x, s) == Sql.QueryPartitions(l.db, x, s)
  {
    var t, s, p := st.lastTable - l.db.lastTable, st.lastSnapshot - l.db.lastSnapshot,
      st.lastPartition - l.db.lastPartition;
    DrawnOk(l, t, s, p);
    assert Drawn(l, t, s, p) == DrawnUpTo(l, st);
  }

  lemma LatestReads(l: Ledger, name: string, counter: nat)
    requires Ok(l)
    ensures Reads.LatestIsLive(l.db, name, counter) ==>
      Sql.QueryPartitions(l.db, name, ReadSnapshot(l.db, name, 0, counter)) == Some(Reads.RowsOf(l.db, name))
    ensures IsLive(l.db, name) ==> Sql.QueryPartitions(l.db, name, 0) == Some([])
  {
    if Reads.LatestIsLive(l.db, name, counter) {
      Reads.LatestReadResolution(l, name, counter);
    }
    if IsLive(l.db, name) {
      Reads.NothingAtZero(l, name);
    }
  }

  lemma NoPageAtZero(l: Ledger, name: string, limit: int, last: int)
    requires Ok(l)
    ensures IsLive(l.db, name) ==> QueryPage(l.db, name, 0, limit, last) == Some([])
  {
    if IsLive(l.db, name) {
      Reads.NothingAtZero(l, name);
      Invariant.PageOfWhole(l.db, name, 0, Serving.Page(limit, last));
    }
  }

  /** Rows that stay put read the same, whatever ids were drawn. */
  lemma SameReads(a: Store, b: Store, l: Ledger)
    requires Ok(l) && l.db == a && SameRows(a, b)
    ensures forall x, s: nat :: Sql.QueryPartitions(b, x, s) == Sql.QueryPartitions(a, x, s)
  {
    DrawnUpToOk(l, b);
    assert DrawnUpTo(l, b).db == b;
  }

  lemma MarkOneMore(parts: map<nat, Tuple>, tid: nat, keys: seq<string>, j: nat, n: nat)
    requires j < |keys|
    ensures MarkDeleted(MarkDeleted(parts, tid, KeySet(keys[..j]), n), tid, {keys[j]}, n) ==
            MarkDeleted(parts, tid, KeySet(keys[..j + 1]), n)
  {
    assert KeySet(keys[..j + 1]) == KeySet(keys[..j]) + {keys[j]};
  }

  /** now is before with these rows inserted, their ids drawn in ascending order. */
  ghost predicate RowsIn(before: Store, now: Store, tid: nat, n: nat, data: seq<PartitionData>, added: Rows) {
    && before.lastPartition <= now.lastPartition
    && now == before.(lastPartition := now.lastPartition, partitions := WithRows(before.partitions, added))
    && |added| == |data| && Ascending(added, before.lastPartition, now.lastPartition)
    && (forall i :: 0 <= i < |added| ==> added[i] == NewRow(added[i].id, tid, n, data[i]))
  }

  lemma OneMoreRow(before: Store, mid: Store, now: Store, tid: nat, n: nat, data: seq<PartitionData>, i: nat,
      added: Rows)
    requires i < |data| && RowsIn(before, mid, tid, n, data[..i], added) && mid.lastPartition < now.lastPartition
    requires now == mid.(
      lastPartition := now.lastPartition,
      partitions := WithRow(mid.partitions, NewRow(now.lastPartition, tid, n, data[i])))
    ensures RowsIn(before, now, tid, n, data[..i + 1], added + [NewRow(now.lastPartition, tid, n, data[i])])
  {
    var added' := added + [NewRow(now.lastPartition, tid, n, data[i])];
    assert added'[..|added|] == added;
  }

  /** The open transaction, its rows inserted, is one that may be published. */
  lemma TransactionIsWriting(l: Ledger, st: Store, name: string, n: nat, req: Request, added: Rows)
    requires Ok(l) && IsLive(l.db, name) && MovedOn(l.db, st) && l.db.lastSnapshot < n <= st.lastSnapshot
    requires req.parent == l.db.tables[name].current || req.parent == 0
    requires |added| == |req.added| && Ascending(added, l.db.lastPartition, st.lastPartition)
    requires forall i :: 0 <= i < |added| ==> added[i] == NewRow(added[i].id, l.db.tables[name].id, n, req.added[i])
    ensures Writing(DrawnUpTo(l, st), name, l.db.tables[name].id, n, l.db.lastPartition, req, added)
  {
  }

  /** After a commit and the invalidation of its table the cache is current again. */
  lemma CurrentAfterCommit(l: Ledger, name: string, tid: nat, n: nat, base: nat, req: Request, added: Rows,
      es: seq<Entry<string, Rows>>)
    requires Shape(l) && Writing(l, name, tid, n, base, req, added) && Current(l.db, es)
    ensures Current(Published(l, name, n, req, added).db, Without(es, Serving.TablePred(name)))
  {
    var db', kept := Published(l, name, n, req, added).db, Without(es, Serving.TablePred(name));
    WithoutMembers(es, Serving.TablePred(name));
    forall e, x, snap: nat | e in kept && e.key == CacheKey(x, snap)
      ensures Sql.QueryPartitions(db', x, snap) == Some(e.value)
    {
      var i :| 0 <= i < |kept| && kept[i] == e;
      assert e in es && !Serving.TablePred(name)(e.key);
      PrefixReach(name, x, snap);
      PublishedQuery(l, name, tid, n, base, req, added, x, snap);
    }
  }

  /** l' is l after the commit of snapshot n, whose rows are the request's in order. */
  ghost predicate CommitsTo(l: Ledger, l': Ledger, name: string, n: nat, req: Request, added: Rows) {
    && IsLive(l.db, name) && n > l.db.lastSnapshot && |added| == |req.added|
    && MovedOn(l.db, l'.db)
    && Writing(DrawnUpTo(l, l'.db), name, l.db.tables[name].id, n, l.db.lastPartition, req, added)
    && l' == Published(DrawnUpTo(l, l'.db), name, n, req, added)
  }

  /** A commit is all or nothing. Without success no row, log entry or root has
      changed and the snapshot id is 0; with success exactly the request is published,
      on top of the current snapshot and with no statement failed, or of 0 if the SELECT
      of the pointer was the one statement that failed. When none fails, it succeeds iff
      the table exists and parent is its pointer. */
  ghost predicate Outcome(l: Ledger, l': Ledger, faults: int, name: string, req: Request, r: CommitResult,
      added: Rows)
  {
    var current := CurrentSnapshot(l.db, name);
    && 0 <= faults
    && (!r.success ==> SameRows(l.db, l'.db) && l'.log == l.log && l'.roots == l.roots && r.snapshotId == 0)
    && (r.success ==> CommitsTo(l, l', name, r.snapshotId, req, added))
    && (r.success ==> (req.parent == current && faults == 0) || (req.parent == 0 && faults == 1))
    && (faults == 0 ==> (r.success <==> IsLive(l.db, name) && req.parent == current))
  }

  lemma OutcomeOk(l: Ledger, l': Ledger, faults: int, name: string, req: Request, r: CommitResult, added: Rows)
    requires Ok(l) && Outcome(l, l', faults, name, req, r, added)
    ensures Ok(l')
  {
    DrawnUpToOk(l, l'.db);
    if r.success {
      PublishedOk(DrawnUpTo(l, l'.db), name, l.db.tables[name].id, r.snapshotId, l.db.lastPartition, req, added);
    } else {
      assert DrawnUpTo(l, l'.db) == l';
    }
  }

  lemma CommitRecords(l: Ledger, l': Ledger, name: string, n: nat, req: Request, added: Rows)
    requires Ok(l) && CommitsTo(l, l', name, n, req, added)
    ensures Requests.Records(l.db, l'.db, name, n, req, added)
    ensures n <= MAX_BIGINT ==> Requests.ReadsAsRequested(l.db, l'.db, name, n, req)
  {
    var d, tid := DrawnUpTo(l, l'.db), l.db.tables[name].id;
    DrawnUpToOk(l, l'.db);
    Requests.PublishedRecords(d, name, tid, n, l.db.lastPartition, req, added);
    if n <= MAX_BIGINT {
      var picks := Requests.CommitShowsRequest(d, name, tid, n, l.db.lastPartition, req, added, n);
    }
  }

  /** Success leaves no entry of the table in the cache, failure leaves the cache alone. */
  ghost function CacheAfter(es: seq<Entry<string, Rows>>, name: string, r: CommitResult): seq<Entry<string, Rows>> {
    if r.success then Without(es, Serving.TablePred(name)) else es
  }

  /** Invalidation reaches the keys of the table, and of tables whose name starts with its
      name and a colon; every other key is found, or not, as before. */
  ghost predicate Invalidated(es: seq<Entry<string, Rows>>, es': seq<Entry<string, Rows>>, name: string) {
    forall x, snap: nat ::
      Find(es', CacheKey(x, snap)) == if x == name || name + ":" <= x then None else Find(es, CacheKey(x, snap))
  }

  lemma WithoutInvalidates(es: seq<Entry<string, Rows>>, name: string)
    ensures Invalidated(es, Without(es, Serving.TablePred(name)), name)
  {
    forall x, snap: nat ensures Find(Without(es, Serving.TablePred(name)), CacheKey(x, snap)) ==
        if x == name || name + ":" <= x then None else Find(es, CacheKey(x, snap))
    {
      FindWithout(es, Serving.TablePred(name), CacheKey(x, snap));
      PrefixReach(name, x, snap);
    }
  }

  lemma CurrentAfter(l: Ledger, l': Ledger, name: string, n: nat, req: Request, added: Rows,
      es: seq<Entry<string, Rows>>)
    requires Ok(l) && CommitsTo(l, l', name, n, req, added) && Current(l.db, es)
    ensures Current(l'.db, Without(es, Serving.TablePred(name)))
  {
    DrawnUpToOk(l, l'.db);
    CurrentAfterCommit(DrawnUpTo(l, l'.db), name, l.db.tables[name].id, n, l.db.lastPartition, req, added, es);
  }

  lemma CurrentAfterGet(db: Store, es: seq<Entry<string, Rows>>, capacity: nat, name: string, snap: nat)
    requires Current(db, es)
    ensures Current(db, Step(es, capacity, Op.Get(CacheKey(name, snap))))
    ensures var hit := Find(es, CacheKey(name, snap));
      hit.Some? ==>
        hit == Sql.QueryPartitions(db, name, snap)
        && Find(Step(es, capacity, Op.Get(CacheKey(name, snap))), CacheKey(name, snap)) == hit
  {
    Invariant.GetCache(es, capacity, CacheKey(name, snap));
    var hit := Find(es, CacheKey(name, snap));
    if hit.Some? {
      assert Entry(CacheKey(name, snap), hit.value) in es;
    }
  }

  lemma CurrentAfterPut(db: Store, es: seq<Entry<string, Rows>>, capacity: nat, name: string, snap: nat, rows: Rows)
    requires Current(db, es) && Sql.QueryPartitions(db, name, snap) == Some(rows)
    ensures Current(db, Step(es, capacity, Op.Put(CacheKey(name, snap), rows)))
    ensures Find(Step(es, capacity, Op.Put(CacheKey(name, snap), rows)), CacheKey(name, snap)) == Some(rows)
  {
    var key := CacheKey(name, snap);
    Invariant.PutCache(es, capacity, key, rows);
    forall e, x, s: nat | e in Step(es, capacity, Op.Put(key, rows)) && e.key == CacheKey(x, s)
      ensures Sql.QueryPartitions(db, x, s) == Some(e.value)
    {
      if e == Entry(key, rows) {
        KeyIsFaithful(x, s, name, snap);
      }
    }
  }

  class PartitionRegistry {
    const pool: P.ConnectionPool
    const db: Database
    const mvcc: MVCCManager
    const cache: LRUCache<string, Rows>

    ghost predicate Valid()
      reads this, db, cache, cache.list
    {
      db.Quiet() && Coherent()
    }

    constructor (pool: P.ConnectionPool, db: Database, mvcc: MVCCManager, capacity: nat)
      requires capacity >= 1 && db.Quiet()
      ensures Valid() && this.pool == pool && this.db == db && this.mvcc == mvcc && fresh(cache)
    {
      this.pool, this.db, this.mvcc := pool, db, mvcc;
      cache := new LRUCache(capacity);
    }

    // ---- Commits ----

    /** The insert loop. */
    method InsertRows(name: string, n: nat, data: seq<PartitionData>) returns (ok: bool, ghost added: Rows)
      requires IsLive(db.store, name)
      modifies db`store, db`aborted, db`faults
      ensures db.faults >= old(db.faults) && (ok <==> db.faults == old(db.faults))
      ensures ok ==> db.aborted == old(db.aborted)
      ensures MovedOn(old(db.store), db.store)
      ensures ok ==> RowsIn(old(db.store), db.store, old(db.store).tables[name].id, n, data, added)
      ensures ok ==> |added| == |data| && forall i :: 0 <= i < |added| ==> Carries(added[i], data[i])
    {
      ghost var tid := db.store.tables[name].id;
      added := [];
      for i := 0 to |data|
        invariant db.faults == old(db.faults) && db.aborted == old(db.aborted)
        invariant RowsIn(old(db.store), db.store, tid, n, data[..i], added)
      {
        ghost var mid := db.store;
        ok := db.InsertPartition(name, n, data[i]);
        if !ok {
          return;
        }
        OneMoreRow(old(db.store), mid, db.store, tid, n, data, i, added);
        added := added + [NewRow(db.store.lastPartition, tid, n, data[i])];
      }
      assert data[..|data|] == data;
      ok := true;
    }

    /** The mark loop: key by key, and together what one statement with all keys would do. */
    method MarkKeys(name: string, n: nat, keys: seq<string>) returns (ok: bool)
      requires IsLive(db.store, name)
      modifies db`store, db`aborted, db`faults
      ensures db.faults >= old(db.faults) && (ok <==> db.faults == old(db.faults))
      ensures ok ==> db.aborted == old(db.aborted)
      ensures MovedOn(old(db.store), db.store)
      ensures ok ==> db.store == old(db.store).(
        partitions := MarkDeleted(old(db.store).partitions, old(db.store).tables[name].id, KeySet(keys), n))
    {
      ghost var tid := db.store.tables[name].id;
      for j := 0 to |keys|
        invariant db.faults == old(db.faults) && db.aborted == old(db.aborted)
        invariant db.store ==
          old(db.store).(partitions := MarkDeleted(old(db.store).partitions, tid, KeySet(keys[..j]), n))
      {
        MarkOneMore(old(db.store).partitions, tid, keys, j, n);
        ok := db.MarkPartitionDeleted(name, keys[j], n);
        if !ok {
          return;
        }
      }
      assert keys[..|keys|] == keys;
      ok := true;
    }

    /** The statements of the transaction, up to the first that fails (0). */
    method Fill(name: string, req: Request, ghost l: Ledger) returns (n: nat, ghost added: Rows)
      requires l == db.View() && Ok(l) && !db.aborted
      requires req.parent == CurrentSnapshot(db.store, name) || req.parent == 0
      modifies db`store, db`aborted, db`faults
      ensures db.faults >= old(db.faults) && (db.faults == old(db.faults) ==> (n != 0 <==> IsLive(l.db, name)))
      ensures MovedOn(l.db, db.store)
      ensures n != 0 ==> db.faults == old(db.faults) && !db.aborted && IsLive(l.db, name)
      ensures n != 0 ==> l.db.lastSnapshot < n && |added| == |req.added|
      ensures n != 0 ==> Writing(DrawnUpTo(l, db.store), name, l.db.tables[name].id, n, l.db.lastPartition, req, added)
      ensures n != 0 ==> db.store == Publish(DrawnUpTo(l, db.store).db, name, n, req, added)
    {
      added := [];
      n := db.InsertSnapshot(name, req.parent, req.operation, |req.added|, |req.deleted|);
      if n == 0 {
        return;
      }
      var ok;
      ok, added := InsertRows(name, n, req.added);
      if !ok {
        return 0, [];
      }
      ok := MarkKeys(name, n, req.deleted);
      if !ok {
        return 0, [];
      }
      ok := db.UpdateTableSnapshot(name, n);
      if !ok {
        return 0, [];
      }
      TransactionIsWriting(l, db.store, name, n, req, added);
    }

    /** Check, BEGIN, the statements, then COMMIT, or ROLLBACK when one failed. */
    method TryCommit(name: string, req: Request) returns (r: CommitResult, ghost added: Rows)
      requires db.Quiet()
      modifies db
      ensures db.saved.None? && !db.aborted
      ensures Outcome(old(db.View()), db.View(), db.faults - old(db.faults), name, req, r, added)
    {
      ghost var l := db.View();
      var current := db.GetCurrentSnapshot(name);
      if req.parent != current {
        return FAILED, [];
      }
      db.Begin();
      var n;
      n, added := Fill(name, req, l);
      if n == 0 {
        db.Rollback();
        return FAILED, [];
      }
      db.Commit();
      ghost var l' := Published(DrawnUpTo(l, db.store), name, n, req, added);
      db.log, db.roots := l'.log, l'.roots;
      r := CommitResult(true, n);
    }

    method InvalidateTableCache(name: string)
      requires cache.Valid()
      modifies cache
      ensures cache.Valid() && forall n :: n in cache.list ==> n in old(cache.list)
      ensures cache.Contents() == Without(old(cache.Contents()), Serving.TablePred(name))
    {
      var prefix := TablePrefix(name);
      var p := key => prefix <= key;
      var removed := cache.InvalidateIf(p);
      WithoutSame(old(cache.Contents()), p, Serving.TablePred(name));
    }

    /** What a commit does to database and cache. */
    method CommitOver(name: string, req: Request) returns (r: CommitResult, ghost added: Rows)
      requires Valid()
      modifies db, cache
      ensures db.saved.None? && !db.aborted && Coherent()
      ensures Outcome(old(db.View()), db.View(), db.faults - old(db.faults), name, req, r, added)
      ensures cache.Contents() == CacheAfter(old(cache.Contents()), name, r)
    {
      ghost var l, es := db.View(), cache.Contents();
      r, added := TryCommit(name, req);
      if r.success {
        InvalidateTableCache(name);
        CurrentAfter(l, db.View(), name, r.snapshotId, req, added, es);
      } else {
        SameReads(l.db, db.store, l);
      }
    }

    /** All connections are back, but one that broke and could not be replaced; only an
        empty queue makes a call wait. */
    ghost predicate PoolKept(handles: seq<P.ConnectionHandle>, available: nat, lost: nat, end: P.End)
      reads pool, handles
    {
      && P.Owned(pool, handles)
      && pool.lost == lost + (if end.Throws? then 1 else 0)
      && |pool.available| == available - (if end.Throws? then 1 else 0)
      && (end.Waits? ==> available == 0)
    }

    /** A handle's scope begins; without a connection to hand out, nothing has happened. */
    method Borrow(ghost handles: seq<P.ConnectionHandle>) returns (end: P.End, conn: Option<P.ConnectionHandle>)
      requires P.Owned(pool, handles)
      modifies pool
      ensures cache.Contents() == old(cache.Contents())
      ensures (conn.Some? <==> end.Replies?) && (end.Waits? <==> old(pool.available) == [])
      ensures conn.None? ==> PoolKept(handles, old(|pool.available|), old(pool.lost), end)
      ensures conn.Some? ==> fresh(conn.value) && conn.value.conn.Some? && P.Owned(pool, handles + [conn.value])
      ensures conn.Some? ==> pool.available == old(pool.available)[1..] && pool.lost == old(pool.lost)
    {
      end, conn := pool.Acquire(handles);
    }

    /** The same on a borrowed connection, which goes back whichever way the commit ends. */
    method CommitWith(conn: P.ConnectionHandle, name: string, req: Request, ghost handles: seq<P.ConnectionHandle>)
      returns (r: CommitResult, ghost added: Rows)
      requires Valid() && P.Owned(pool, handles + [conn]) && conn.conn.Some?
      modifies pool, db, cache
      ensures db.saved.None? && !db.aborted && Coherent() && P.Owned(pool, handles)
      ensures pool.lost == old(pool.lost) && |pool.available| == old(|pool.available|) + 1
      ensures Outcome(old(db.View()), db.View(), db.faults - old(db.faults), name, req, r, added)
      ensures cache.Contents() == CacheAfter(old(cache.Contents()), name, r)
    {
      r, added := CommitOver(name, req);
      GiveBack(conn, handles);
    }

    /** Only a connection that could not be replaced is lost; while the commit waits for
        one, or when it throws, nothing else has happened. Success is what the request
        says, in the columns of the tables and for a reader of the new snapshot. */
    method CommitSnapshot(name: string, req: Request, ghost handles: seq<P.ConnectionHandle>)
      returns (end: P.End, r: CommitResult, ghost added: Rows)
      requires Valid() && P.Owned(pool, handles)
      modifies pool, db, cache
      ensures Valid() && PoolKept(handles, old(|pool.available|), old(pool.lost), end)
      ensures end.Waits? <==> old(pool.available) == []
      ensures if end.Replies? then Outcome(old(db.View()), db.View(), db.faults - old(db.faults), name, req, r, added)
              else r == CommitResult(false, 0) && db.View() == old(db.View())
      ensures cache.Contents() == CacheAfter(old(cache.Contents()), name, r)
      ensures r.success ==> Requests.Records(old(db.store), db.store, name, r.snapshotId, req, added)
      ensures r.success && r.snapshotId <= MAX_BIGINT ==>
        Requests.ReadsAsRequested(old(db.store), db.store, name, r.snapshotId, req)
      ensures if r.success then Invalidated(old(cache.Contents()), cache.Contents(), name)
              else cache.Contents() == old(cache.Contents())
    {
      var conn;
      end, conn := Borrow(handles);
      if conn.None? {
        return end, FAILED, [];
      }
      r, added := CommitWith(conn.value, name, req, handles);
      OutcomeOk(old(db.View()), db.View(), db.faults - old(db.faults), name, req, r, added);
      if r.success {
        CommitRecords(old(db.View()), db.View(), name, r.snapshotId, req, added);
        WithoutInvalidates(old(cache.Contents()), name);
      }
    }

    /** The end of a handle's scope. */
    method GiveBack(conn: P.ConnectionHandle, ghost handles: seq<P.ConnectionHandle>)
      requires P.Owned(pool, handles + [conn]) && conn.conn.Some?
      modifies pool
      ensures cache.Contents() == old(cache.Contents()) && P.Owned(pool, handles) && pool.lost == old(pool.lost)
      ensures pool.available == old(pool.available) + [conn.conn.value]
    {
      ghost var all := handles + [conn];
      conn.Destroy(pool, all, |handles|);
      assert all[..|handles|] + all[|handles| + 1..] == handles;
    }

    // ---- Reads ----

    /** Borrow, ask for the pointer, give back; lost says that the SELECT failed. */
    method AskPointer(name: string, ghost handles: seq<P.ConnectionHandle>)
      returns (end: P.End, snap: nat, ghost lost: bool)
      requires P.Owned(pool, handles) && !db.aborted && db.saved.None?
      modifies pool, db`aborted, db`faults
      ensures PoolKept(handles, old(|pool.available|), old(pool.lost), end)
      ensures cache.Contents() == old(cache.Contents())
      ensures db.Told(old(db.aborted), old(db.faults))
      ensures lost == (db.faults > old(db.faults)) && (lost ==> end.Replies?)
      ensures end.Waits? <==> old(pool.available) == []
      ensures end.Replies? ==> snap == if lost then 0 else CurrentSnapshot(db.store, name)
    {
      var conn;
      end, conn := Borrow(handles);
      if conn.None? {
        return end, 0, false;
      }
      snap := db.GetCurrentSnapshot(name);
      lost := db.faults > old(db.faults);
      GiveBack(conn.value, handles);
    }

    /** The connection for the pointer is back before the cache is asked. */
    method ResolveSnapshot(name: string, want: nat, ghost handles: seq<P.ConnectionHandle>)
      returns (end: P.End, snap: nat, ghost lost: bool)
      requires P.Owned(pool, handles) && !db.aborted && db.saved.None?
      modifies pool, db`aborted, db`faults
      ensures PoolKept(handles, old(|pool.available|), old(pool.lost), end)
      ensures cache.Contents() == old(cache.Contents())
      ensures db.Told(old(db.aborted), old(db.faults)) && lost == (db.faults > old(db.faults))
      ensures end.Waits? <==> old(pool.available) == [] && want == 0 && mvcc.latest == 0
      ensures end.Replies? ==> Resolves(name, want, snap, lost)
    {
      end, lost := P.Replies, false;
      snap := want;
      if want == 0 {
        snap := mvcc.GetLatestCommittedSnapshot();
      }
      if snap == 0 {
        end, snap, lost := AskPointer(name, handles);
      }
    }

    /** snap is the snapshot to read, or 0 because the SELECT of the pointer failed,
        which only a read of the latest with the counter at 0 sends. */
    ghost predicate Resolves(name: string, want: nat, snap: nat, lost: bool)
      reads this, mvcc, db`store
    {
      && (want != 0 ==> snap == want)
      && (want == 0 && mvcc.latest != 0 ==> snap == mvcc.latest)
      && (want == 0 && mvcc.latest == 0 && !lost ==>
            var tables := db.store.tables;
            snap == if name in tables && !tables[name].isDeleted then tables[name].current else 0)
      && (lost ==> want == 0 && mvcc.latest == 0 && snap == 0)
    }

    /** The cache agrees with the database. */
    ghost predicate Coherent()
      reads this, db`store, cache, cache.list
    {
      cache.Valid() && Current(db.store, cache.Contents())
    }

    method Lookup(name: string, snap: nat) returns (r: Option<Rows>)
      requires Coherent()
      modifies cache
      ensures Coherent() && (r.None? ==> cache.list == old(cache.list))
      ensures r.Some? ==> r == Sql.QueryPartitions(db.store, name, snap)
      ensures r == Find(old(cache.Contents()), CacheKey(name, snap))
      ensures r.Some? ==> Find(cache.Contents(), CacheKey(name, snap)) == r
    {
      ghost var es := cache.Contents();
      r := cache.Get(CacheKey(name, snap));
      CurrentAfterGet(db.store, es, cache.capacity, name, snap);
    }

    method Remember(name: string, snap: nat, rows: Rows)
      requires Coherent() && Sql.QueryPartitions(db.store, name, snap) == Some(rows)
      modifies cache, cache.list
      ensures Coherent() && forall n :: n in cache.list && n !in old(cache.list) ==> fresh(n)
      ensures Find(cache.Contents(), CacheKey(name, snap)) == Some(rows)
    {
      ghost var es := cache.Contents();
      cache.Put(CacheKey(name, snap), rows);
      CurrentAfterPut(db.store, es, cache.capacity, name, snap, rows);
    }

    method QueryAndPut(name: string, snap: nat) returns (r: Option<Rows>)
      requires Coherent()
      modifies cache, cache.list, db`aborted, db`faults
      ensures Coherent() && db.Told(old(db.aborted), old(db.faults))
      ensures forall n :: n in cache.list && n !in old(cache.list) ==> fresh(n)
      ensures r.Some? || db.faults == old(db.faults) ==> r == Sql.QueryPartitions(db.store, name, snap)
      ensures r.Some? ==> Find(cache.Contents(), CacheKey(name, snap)) == r
    {
      r := db.QueryPartitions(name, snap);
      if r.Some? {
        Remember(name, snap, r.value);
      }
    }

    /** A read once its snapshot is known: cache, else connection, query and put. A hit
        needs no connection. */
    method ReadThrough(name: string, snap: nat, ghost handles: seq<P.ConnectionHandle>)
      returns (end: P.End, r: Option<Rows>)
      requires Coherent() && P.Owned(pool, handles)
      modifies pool, cache, cache.list, db`aborted, db`faults
      ensures Coherent() && PoolKept(handles, old(|pool.available|), old(pool.lost), end)
      ensures db.Told(old(db.aborted), old(db.faults)) || (db.aborted == old(db.aborted) && db.faults == old(db.faults))
      ensures end.Waits? <==> old(pool.available) == [] && Find(old(cache.Contents()), CacheKey(name, snap)).None?
      ensures r.Some? || (end.Replies? && db.faults == old(db.faults)) ==>
        r == Sql.QueryPartitions(db.store, name, snap)
      ensures r.Some? ==> end.Replies? && Find(cache.Contents(), CacheKey(name, snap)) == r
    {
      end := P.Replies;
      r := Lookup(name, snap);
      if r.Some? {
        return;
      }
      var conn;
      end, conn := Borrow(handles);
      if conn.None? {
        return end, None;
      }
      r := QueryAndPut(name, snap);
      GiveBack(conn.value, handles);
    }

    /** A cached read: what the query would answer now at the snapshot asked for,
        whether the cache or the database answers, and afterwards it is cached. For the
        latest snapshot these are the live rows under the condition on the counter,
        and no rows if the SELECT of the pointer failed. It waits only for a connection
        to ask for the pointer, or on a miss. */
    method GetPartitions(name: string, want: nat, ghost handles: seq<P.ConnectionHandle>)
      returns (end: P.End, r: Option<Rows>, ghost snap: nat, ghost lost: bool)
      requires Valid() && P.Owned(pool, handles)
      modifies pool, cache, cache.list, db`aborted, db`faults
      ensures Valid() && PoolKept(handles, old(|pool.available|), old(pool.lost), end)
      ensures db.faults >= old(db.faults) && (r.Some? ==> end.Replies?) && (lost ==> db.faults > old(db.faults))
      ensures end.Waits? <==>
              && old(pool.available) == []
              && ((want == 0 && mvcc.latest == 0) || Find(old(cache.Contents()), CacheKey(name, snap)).None?)
      ensures end.Replies? ==> Resolves(name, want, snap, lost)
      ensures r.Some? || (end.Replies? && db.faults == old(db.faults)) ==>
        r == Sql.QueryPartitions(db.store, name, snap)
      ensures r.Some? ==> Find(cache.Contents(), CacheKey(name, snap)) == r
      ensures r.Some? && lost ==> r == Some([])
      ensures want == 0 && !lost && Reads.LatestIsLive(db.store, name, mvcc.latest) ==>
        r == Some(Reads.RowsOf(db.store, name)) || (r.None? && (!end.Replies? || db.faults > old(db.faults)))
    {
      LatestReads(db.View(), name, mvcc.latest);
      var s;
      end, s, lost := ResolveSnapshot(name, want, handles);
      snap := s;
      if !end.Replies? {
        return end, None, s, lost;
      }
      end, r := ReadThrough(name, s, handles);
    }

    method PageOver(name: string, snap: nat, pageSize: int, last: int, ghost handles: seq<P.ConnectionHandle>)
      returns (end: P.End, r: Option<Rows>)
      requires P.Owned(pool, handles) && !db.aborted && db.saved.None?
      modifies pool, db`aborted, db`faults
      ensures PoolKept(handles, old(|pool.available|), old(pool.lost), end)
      ensures cache.Contents() == old(cache.Contents()) && db.Told(old(db.aborted), old(db.faults))
      ensures end.Waits? <==> old(pool.available) == []
      ensures r.Some? || (end.Replies? && db.faults == old(db.faults)) ==>
        r == QueryPage(db.store, name, snap, pageSize, last)
    {
      var conn;
      end, conn := Borrow(handles);
      if conn.None? {
        return end, None;
      }
      r := db.QueryPartitionsPaged(name, snap, pageSize, last);
      GiveBack(conn.value, handles);
    }

    /** A paged read goes past the cache. */
    method GetPartitionsPaged(name: string, want: nat, pageSize: int, last: int, ghost handles: seq<P.ConnectionHandle>)
      returns (end: P.End, r: Option<Rows>, ghost snap: nat, ghost lost: bool)
      requires Valid() && P.Owned(pool, handles)
      modifies pool, db`aborted, db`faults
      ensures Valid() && PoolKept(handles, old(|pool.available|), old(pool.lost), end)
      ensures db.faults >= old(db.faults) && (lost ==> db.faults > old(db.faults))
      ensures end.Waits? <==> old(pool.available) == []
      ensures end.Replies? ==> Resolves(name, want, snap, lost)
      ensures r.Some? || (end.Replies? && db.faults == old(db.faults)) ==>
        r == QueryPage(db.store, name, snap, pageSize, last)
      ensures r.Some? ==>
        && |r.value| <= (if pageSize > 0 then pageSize else 1000)
        && exists k :: Statements.IsPage(r.value, Sql.QueryPartitions(db.store, name, snap).value, last, pageSize, k)
      ensures r.Some? && lost ==> r == Some([])
    {
      NoPageAtZero(db.View(), name, pageSize, last);
      var s;
      end, s, lost := ResolveSnapshot(name, want, handles);
      snap := s;
      if !end.Replies? {
        return end, None, s, lost;
      }
      end, r := PageOver(name, s, pageSize, last, handles);
      ghost var k := Statements.PagedRows(db.store, name, s, pageSize, last);
    }

    // ---- Statistics ----

    /** The loop; rowSums and byteSums are what its two totals were before each row and at the end. */
    method AddUp(rows: Rows) returns (stats: Stats, ghost rowSums: seq<int>, ghost byteSums: seq<int>)
      ensures |rowSums| == |byteSums| == |rows| + 1 && rowSums[0] == byteSums[0] == 0
      ensures forall i :: 0 <= i < |rows| ==> rowSums[i + 1] == rowSums[i] + rows[i].data.rowCount
      ensures forall i :: 0 <= i < |rows| ==> byteSums[i + 1] == byteSums[i] + rows[i].data.sizeBytes
      ensures stats.totals.count == |rows|
      ensures stats.totals.rows == rowSums[|rows|] && stats.totals.bytes == byteSums[|rows|]
      ensures stats == StatsOf(rows) && Requests.InColumns(stats, rows)
    {
      var count, totalRows, totalBytes := |rows|, 0, 0;
      rowSums, byteSums := [0], [0];
      for i := 0 to |rows|
        invariant Sum(rows[..i]) == Totals(i, totalRows, totalBytes)
        invariant |rowSums| == |byteSums| == i + 1 && rowSums[0] == byteSums[0] == 0
        invariant rowSums[i] == totalRows && byteSums[i] == totalBytes
        invariant forall j :: 0 <= j < i ==> rowSums[j + 1] == rowSums[j] + rows[j].data.rowCount
        invariant forall j :: 0 <= j < i ==> byteSums[j + 1] == byteSums[j] + rows[j].data.sizeBytes
      {
        assert rows[..i + 1][..i] == rows[..i];
        totalRows, totalBytes := totalRows + rows[i].data.rowCount, totalBytes + rows[i].data.sizeBytes;
        rowSums, byteSums := rowSums + [totalRows], byteSums + [totalBytes];
      }
      assert rows[..|rows|] == rows;
      Requests.StatsInColumns(rows);
      stats := Stats(Totals(count, totalRows, totalBytes), if count > 0 then Quotient(totalBytes, count) else 0);
    }

    /** The rows behind the statistics, on a borrowed connection. */
    method LatestRows(name: string, counter: nat) returns (parts: Option<Rows>, ghost lost: bool)
      requires !db.aborted && db.saved.None?
      modifies db`aborted, db`faults
      ensures db.Told(old(db.aborted), old(db.faults))
      ensures RowsAt(name, counter, parts, lost, db.faults > old(db.faults))
    {
      var snap := counter;
      if snap == 0 {
        snap := db.GetCurrentSnapshot(name);
      }
      lost := db.faults > old(db.faults);
      parts := db.QueryPartitions(name, snap);
    }

    /** The rows that the statistics are of: those at the latest snapshot, or at 0
        because the SELECT of the pointer failed; none at all only if there are none or
        a statement failed. */
    ghost predicate RowsAt(name: string, counter: nat, parts: Option<Rows>, lost: bool, failed: bool)
      reads this, db`store
    {
      && (lost ==> counter == 0 && failed)
      && (parts.Some? || !failed ==>
            parts == Sql.QueryPartitions(db.store, name, if lost then 0 else ReadSnapshot(db.store, name, 0, counter)))
    }

    method StatsOver(name: string, counter: nat) returns (stats: Stats, ghost rows: Option<Rows>, ghost lost: bool)
      requires !db.aborted && db.saved.None?
      modifies db`aborted, db`faults
      ensures db.Told(old(db.aborted), old(db.faults))
      ensures RowsAt(name, counter, rows, lost, db.faults > old(db.faults)) && stats == StatsOrZero(rows)
    {
      var parts;
      parts, lost := LatestRows(name, counter);
      rows := parts;
      if parts.None? {
        return ZERO, rows, lost;
      }
      ghost var rowSums, byteSums;
      stats, rowSums, byteSums := AddUp(parts.value);
    }

    method StatsPooled(name: string, counter: nat, ghost handles: seq<P.ConnectionHandle>)
      returns (end: P.End, stats: Stats, ghost rows: Option<Rows>, ghost lost: bool)
      requires P.Owned(pool, handles) && !db.aborted && db.saved.None?
      modifies pool, db`aborted, db`faults
      ensures PoolKept(handles, old(|pool.available|), old(pool.lost), end)
      ensures cache.Contents() == old(cache.Contents()) && db.Told(old(db.aborted), old(db.faults))
      ensures end.Waits? <==> old(pool.available) == []
      ensures end.Replies? ==>
        RowsAt(name, counter, rows, lost, db.faults > old(db.faults)) && stats == StatsOrZero(rows)
    {
      var conn;
      end, conn := Borrow(handles);
      if conn.None? {
        return end, ZERO, None, false;
      }
      stats, rows, lost := StatsOver(name, counter);
      GiveBack(conn.value, handles);
    }

    /** One connection for the pointer and the rows. The statistics are those of the
        live rows under the condition on the counter, and zeros if the SELECT of the
        pointer failed, whatever the table holds. */
    method GetStats(name: string, ghost handles: seq<P.ConnectionHandle>)
      returns (end: P.End, stats: Stats, ghost rows: Option<Rows>, ghost lost: bool)
      requires Valid() && P.Owned(pool, handles)
      modifies pool, db`aborted, db`faults
      ensures Valid() && PoolKept(handles, old(|pool.available|), old(pool.lost), end)
      ensures end.Waits? <==> old(pool.available) == []
      ensures end.Replies? ==>
        RowsAt(name, mvcc.latest, rows, lost, db.faults > old(db.faults)) && stats == StatsOrZero(rows)
      ensures end.Replies? && rows.Some? ==> Requests.InColumns(stats, rows.value)
      ensures end.Replies? && rows.None? ==> stats.totals == Totals(0, 0, 0) && stats.averageBytes == 0
      ensures end.Replies? && lost ==> stats == ZERO
      ensures end.Replies? && !lost && Reads.LatestIsLive(db.store, name, mvcc.latest) ==>
        stats == StatsOf(Reads.RowsOf(db.store, name)) || (stats == ZERO && rows.None? && db.faults > old(db.faults))
    {
      LatestReads(db.View(), name, mvcc.latest);
      var snap := mvcc.GetLatestCommittedSnapshot();
      end, stats, rows, lost := StatsPooled(name, snap, handles);
      if rows.Some? {
        Requests.StatsInColumns(rows.value);
      }
    }
  }
}
