/** The inductive invariant of the server's state machine. */
module Invariant {
  import opened Options
  import opened CacheKeys
  import opened Recency
  import opened Store
  import opened Replay
  import opened History
  import opened Catalog
  import opened Serving

  /** No thread holds a table exclusively while another holds it at all. */
  ghost predicate Exclusive(pcs: seq<Pc>) {
    forall i, j, x :: 0 <= i < |pcs| && 0 <= j < |pcs| && i != j && x in pcs[i].Excl() ==>
      x !in pcs[j].Excl() && x !in pcs[j].Shared()
  }

  /** What a thread has read or drawn so far is still true. */
  ghost predicate LocalOk(l: Ledger, pc: Pc) {
    match pc
    case CommitOpen(x, req, trusted) =>
      req.parent == CurrentSnapshot(l.db, x) || (!trusted && req.parent == 0)
    case CommitWrite(x, req, trusted, tid, n, base, added, marked) =>
      && Writing(l, x, tid, n, base, req, added) && marked <= |req.deleted|
      && (trusted ==> req.parent == l.db.tables[x].current)
    case ReadPut(x, snap, rows) => QueryPartitions(l.db, x, snap) == Some(rows)
    case ReadDone(x, snap, kind, result, _) =>
      kind.Page? && result.Some? ==> result == PageOf(QueryPartitions(l.db, x, snap), kind)
    case DdlLockSecond(_, op) => op.Rename?
    case DdlReleaseSecond(_, op, _) => op.Rename?
    case _ => true
  }

  /** Two open commits have drawn different ids. */
  ghost predicate Apart(a: Pc, b: Pc) {
    a.CommitWrite? && b.CommitWrite? ==>
      a.n != b.n && forall i, j :: 0 <= i < |a.added| && 0 <= j < |b.added| ==> a.added[i].id != b.added[j].id
  }

  ghost predicate Locals(l: Ledger, pcs: seq<Pc>) {
    && (forall i :: 0 <= i < |pcs| ==> LocalOk(l, pcs[i]))
    && (forall i, j :: 0 <= i < |pcs| && 0 <= j < |pcs| && i != j ==> Apart(pcs[i], pcs[j]))
  }

  /** Some thread has changed what x reads as and not yet invalidated it: a drop or
      a rename, or a commit that still holds its lock. */
  ghost predicate Pending(pcs: seq<Pc>, x: string) {
    exists i :: 0 <= i < |pcs| && pcs[i].Clears(x)
  }

  /** A cached value for (x, snap) is what the query would return now, or an invalidation of x is pending. */
  ghost predicate Fresh(l: Ledger, pcs: seq<Pc>, e: Entry<string, Rows>, x: string, snap: nat) {
    e.key == CacheKey(x, snap) ==> Pending(pcs, x) || QueryPartitions(l.db, x, snap) == Some(e.value)
  }

  ghost predicate Coherent(s: State) {
    forall e, x, snap: nat :: e in s.cache ==> Fresh(s.l, s.pcs, e, x, snap)
  }

  ghost predicate Inv(s: State) {
    && 1 <= s.capacity
    && Exclusive(s.pcs)
    && Ok(s.l)
    && Locals(s.l, s.pcs)
    && Coherent(s)
  }

  lemma StartInv(threads: nat, capacity: nat, connections: nat)
    requires capacity >= 1
    ensures Inv(Start(threads, capacity, connections))
    ensures
      var s := Start(threads, capacity, connections);
      && s.l.db.tables == map[] && s.cache == [] && s.capacity == capacity && s.counter == 0 && s.free == connections
      && |s.pcs| == threads && forall i :: 0 <= i < threads ==> s.pcs[i].Idle?
  {
    StartOk();
  }

  // ---- Locks ----

  /** A step that keeps or gives up guards, or takes one the lock manager grants. */
  ghost predicate GuardsGranted(pcs: seq<Pc>, i: nat, pc: Pc)
    requires i < |pcs|
  {
    && (forall x :: x in pc.Excl() && x !in pcs[i].Excl() ==>
          forall j :: 0 <= j < |pcs| ==> x !in pcs[j].Excl() && x !in pcs[j].Shared())
    && (forall x :: x in pc.Shared() && x !in pcs[i].Shared() ==>
          forall j :: 0 <= j < |pcs| ==> x !in pcs[j].Excl())
  }

  lemma ExclusiveKept(pcs: seq<Pc>, i: nat, pc: Pc)
    requires i < |pcs| && Exclusive(pcs) && GuardsGranted(pcs, i, pc)
    ensures Exclusive(pcs[i := pc])
  {
  }

  lemma ReadGuards(s: State, i: nat, ok: bool)
    requires i < |s.pcs| && MayWork(s, i)
    ensures |ReadNext(s, i, ok).pcs| == |s.pcs|
    ensures ReadNext(s, i, ok).pcs == s.pcs[i := ReadNext(s, i, ok).pcs[i]]
    ensures GuardsGranted(s.pcs, i, ReadNext(s, i, ok).pcs[i])
  {
    ReadMoves(s, i, ok);
    if s.pcs[i].ReadLock? {
      ReadLocks(s, i, ok);
    } else {
      ReadHolds(s, i, ok);
    }
  }

  lemma ReadMoves(s: State, i: nat, ok: bool)
    requires i < |s.pcs| && MayWork(s, i)
    ensures |ReadNext(s, i, ok).pcs| == |s.pcs|
    ensures ReadNext(s, i, ok).pcs == s.pcs[i := ReadNext(s, i, ok).pcs[i]]
  {
  }

  lemma ReadLocks(s: State, i: nat, ok: bool)
    requires i < |s.pcs| && MayWork(s, i) && s.pcs[i].ReadLock? && |ReadNext(s, i, ok).pcs| == |s.pcs|
    ensures FreeForShared(s, s.pcs[i].t)
    ensures ReadNext(s, i, ok).pcs[i].Excl() == {} && ReadNext(s, i, ok).pcs[i].Shared() == {s.pcs[i].t}
  {
  }

  /** Past its lock, a read's step takes no guard. */
  lemma ReadHolds(s: State, i: nat, ok: bool)
    requires i < |s.pcs| && MayWork(s, i) && !s.pcs[i].ReadLock? && |ReadNext(s, i, ok).pcs| == |s.pcs|
    ensures ReadNext(s, i, ok).pcs[i].Excl() <= s.pcs[i].Excl()
    ensures ReadNext(s, i, ok).pcs[i].Shared() <= s.pcs[i].Shared()
  {
    if s.pcs[i].Shared() == {} {
      ReadIdles(s, i, ok);
    } else {
      ReadKeepsTable(s, i, ok);
    }
  }

  lemma ReadIdles(s: State, i: nat, ok: bool)
    requires i < |s.pcs| && MayWork(s, i) && !s.pcs[i].ReadLock? && s.pcs[i].Shared() == {}
    ensures ReadNext(s, i, ok) == s
  {
  }

  lemma ReadKeepsTable(s: State, i: nat, ok: bool)
    requires i < |s.pcs| && MayWork(s, i) && s.pcs[i].Shared() != {} && |ReadNext(s, i, ok).pcs| == |s.pcs|
    ensures s.pcs[i].Excl() == {} == ReadNext(s, i, ok).pcs[i].Excl()
    ensures s.pcs[i].Shared() == ReadNext(s, i, ok).pcs[i].Shared()
  {
  }

  lemma CommitGuards(s: State, i: nat, ok: bool, gap: nat)
    requires i < |s.pcs| && MayWork(s, i)
    ensures |CommitNext(s, i, ok, gap).pcs| == |s.pcs|
    ensures CommitNext(s, i, ok, gap).pcs == s.pcs[i := CommitNext(s, i, ok, gap).pcs[i]]
    ensures GuardsGranted(s.pcs, i, CommitNext(s, i, ok, gap).pcs[i])
  {
    CommitMoves(s, i, ok, gap);
    CommitHolds(s, i, ok, gap);
  }

  lemma CommitMoves(s: State, i: nat, ok: bool, gap: nat)
    requires i < |s.pcs| && MayWork(s, i)
    ensures |CommitNext(s, i, ok, gap).pcs| == |s.pcs|
    ensures CommitNext(s, i, ok, gap).pcs == s.pcs[i := CommitNext(s, i, ok, gap).pcs[i]]
  {
  }

  /** A commit's step takes no guard but its table's, where the lock is free. */
  lemma CommitHolds(s: State, i: nat, ok: bool, gap: nat)
    requires i < |s.pcs| && MayWork(s, i) && |CommitNext(s, i, ok, gap).pcs| == |s.pcs|
    ensures
      var pc, pc' := s.pcs[i], CommitNext(s, i, ok, gap).pcs[i];
      && pc'.Shared() <= pc.Shared()
      && (pc.CommitLock? ==> pc'.Excl() == {pc.t} && FreeForExclusive(s, pc.t))
      && (!pc.CommitLock? ==> pc'.Excl() <= pc.Excl())
  {
  }

  lemma DdlGuards(s: State, i: nat, ok: bool, gap: nat)
    requires i < |s.pcs| && MayWork(s, i)
    ensures |DdlNext(s, i, ok, gap).pcs| == |s.pcs|
    ensures DdlNext(s, i, ok, gap).pcs == s.pcs[i := DdlNext(s, i, ok, gap).pcs[i]]
    ensures GuardsGranted(s.pcs, i, DdlNext(s, i, ok, gap).pcs[i])
  {
  }

  lemma GateGuards(s: State, i: nat)
    requires i < |s.pcs| && CanGo(s, i) && s.pcs[i].Gated()
    ensures |GateNext(s, i).pcs| == |s.pcs| && GateNext(s, i).l == s.l && GateNext(s, i).cache == s.cache
    ensures GateNext(s, i).pcs == s.pcs[i := GateNext(s, i).pcs[i]]
    ensures GuardsGranted(s.pcs, i, GateNext(s, i).pcs[i])
    ensures forall x :: s.pcs[i].Clears(x) ==> GateNext(s, i).pcs[i].Clears(x)
  {
  }

  /** A step moves one thread and leaves the others where they are. */
  lemma OthersStay(s: State, a: Action)
    requires Enabled(s, a)
    ensures |Next(s, a).pcs| == |s.pcs|
    ensures !a.CounterMoves? ==> Next(s, a).pcs == s.pcs[a.i := Next(s, a).pcs[a.i]]
    ensures a.CounterMoves? ==> Next(s, a).pcs == s.pcs
  {
    if a.Go? {
      if s.pcs[a.i].Gated() {
        GateGuards(s, a.i);
      } else {
        ReadGuards(s, a.i, a.ok);
        CommitGuards(s, a.i, a.ok, a.gap);
        DdlGuards(s, a.i, a.ok, a.gap);
      }
    }
  }

  // ---- What other threads know survives a step ----

  lemma LocalKeptDrawn(l: Ledger, tables: nat, snapshots: nat, partitions: nat, pc: Pc)
    requires Ok(l) && LocalOk(l, pc)
    ensures LocalOk(Drawn(l, tables, snapshots, partitions), pc)
  {
    if pc.ReadPut? || pc.ReadDone? {
      DrawnQuery(l, tables, snapshots, partitions, pc.t, pc.snap);
    } else {
      WriterKeptDrawn(l, tables, snapshots, partitions, pc);
    }
  }

  lemma DrawnQuery(l: Ledger, tables: nat, snapshots: nat, partitions: nat, x: string, snap: nat)
    requires Ok(l)
    ensures QueryPartitions(Drawn(l, tables, snapshots, partitions).db, x, snap) == QueryPartitions(l.db, x, snap)
  {
    DrawnOk(l, tables, snapshots, partitions);
  }

  lemma WriterKeptDrawn(l: Ledger, tables: nat, snapshots: nat, partitions: nat, pc: Pc)
    requires LocalOk(l, pc) && !pc.ReadPut? && !pc.ReadDone?
    ensures LocalOk(Drawn(l, tables, snapshots, partitions), pc)
  {
  }

  lemma LocalKeptPublished(l: Ledger, x: string, w: Pc, pc: Pc)
    requires Shape(l) && w.CommitWrite? && w.t == x && LocalOk(l, w) && LocalOk(l, pc)
    requires x !in pc.Excl() && x !in pc.Shared() && Apart(w, pc)
    ensures LocalOk(Published(l, x, w.n, w.req, w.added), pc)
  {
    if pc.ReadPut? || pc.ReadDone? {
      PublishedQuery(l, x, w.tid, w.n, w.base, w.req, w.added, pc.t, pc.snap);
    } else if pc.CommitWrite? {
      OtherWriterKept(l, x, w, pc);
    }
  }

  /** A published commit leaves, at each id, the row that was there or one it inserted. */
  lemma PublishedAt(l: Ledger, x: string, n: nat, req: Request, added: Rows, p: nat)
    requires x in l.db.tables && forall i, j :: 0 <= i < j < |added| ==> added[i].id < added[j].id
    ensures var parts' := Published(l, x, n, req, added).db.partitions;
      p in parts' ==>
        (p in l.db.partitions && parts'[p].row == l.db.partitions[p].row)
        || exists i :: 0 <= i < |added| && added[i].id == p && parts'[p].row == added[i]
  {
    WithRowsAt(l.db.partitions, added, p);
    if i :| 0 <= i < |added| && added[i].id == p {
      assert WithRows(l.db.partitions, added)[p] == Inserted(added[i]);
    }
  }

  lemma OtherWriterKept(l: Ledger, x: string, w: Pc, pc: Pc)
    requires TablesOk(l.db) && w.CommitWrite? && w.t == x && LocalOk(l, w)
    requires pc.CommitWrite? && LocalOk(l, pc) && pc.t != x && Apart(w, pc)
    ensures LocalOk(Published(l, x, w.n, w.req, w.added), pc)
  {
    var parts' := Published(l, x, w.n, w.req, w.added).db.partitions;
    assert l.db.tables[pc.t].id != w.tid;
    forall i | 0 <= i < |pc.added| ensures pc.added[i].id !in parts' {
      PublishedAt(l, x, w.n, w.req, w.added, pc.added[i].id);
    }
    forall p | p in parts' ensures parts'[p].row.tableId == pc.tid ==> p <= pc.base {
      PublishedAt(l, x, w.n, w.req, w.added, p);
    }
  }

  lemma LocalKeptEffect(l: Ledger, op: Ddl, pc: Pc)
    requires TablesOk(l.db) && Effect(l, op).Some? && LocalOk(l, pc)
    requires forall x :: x in op.Names() ==> x !in pc.Excl() && x !in pc.Shared()
    ensures LocalOk(Effect(l, op).value, pc)
  {
    if pc.ReadPut? || pc.ReadDone? {
      EffectQuery(l, op, pc.t, pc.snap);
    } else if pc.CommitOpen? {
      EffectKeepsRow(l, op, pc.t);
    } else if pc.CommitWrite? {
      EffectKeepsRow(l, op, pc.t);
    }
  }

  lemma EffectKeepsRow(l: Ledger, op: Ddl, x: string)
    requires Effect(l, op).Some? && x !in op.Names()
    ensures var l' := Effect(l, op).value;
      && (x in l'.db.tables <==> x in l.db.tables)
      && (x in l.db.tables ==> l'.db.tables[x] == l.db.tables[x])
      && l'.db.lastSnapshot == l.db.lastSnapshot && l'.db.lastPartition == l.db.lastPartition
      && (forall n :: n in l'.log ==> n in l.log)
      && (forall p :: p in l'.db.partitions ==> p in l.db.partitions && l'.db.partitions[p] == l.db.partitions[p])
  {
    match op
    case Create(_, _, _, _) =>
    case Alter(_, _, _) =>
    case Rename(_, _) =>
    case Drop(_, purge) =>
  }

  // ---- Pages ----

  /** The rows after an id. */
  function Above(rows: Rows, id: int): Rows {
    if rows == [] then []
    else Above(rows[..|rows| - 1], id) + if rows[|rows| - 1].id > id then [rows[|rows| - 1]] else []
  }

  /** The page of a full read: the rows after the last id, cut to the limit. */
  function PageOf(whole: Option<Rows>, kind: Kind): Option<Rows>
    requires kind.Page?
  {
    if whole.None? then None
    else
      Some(Take(Above(whole.value, if kind.last > 0 then kind.last else 0),
                if kind.limit > 0 then kind.limit else 1000))
  }

  lemma {:induction false} ScanAbove(p: map<nat, Tuple>, tid: nat, snap: nat, lo: nat, hi: nat)
    requires forall id :: id in p ==> p[id].row.id == id
    ensures Scan(p, tid, snap, lo, hi) == Above(Scan(p, tid, snap, 0, hi), lo)
    decreases hi
  {
    if hi > 0 {
      ScanAbove(p, tid, snap, lo, hi - 1);
      var before := Scan(p, tid, snap, 0, hi - 1);
      if Shows(p, tid, snap, hi) {
        assert (before + [p[hi].row])[..|before|] == before;
      } else {
        assert before + [] == before;
      }
      if hi <= lo {
        AboveNothing(p, tid, snap, lo, hi - 1);
      }
    }
  }

  lemma {:induction false} AboveNothing(p: map<nat, Tuple>, tid: nat, snap: nat, lo: nat, hi: nat)
    requires hi <= lo && forall id :: id in p ==> p[id].row.id == id
    ensures Above(Scan(p, tid, snap, 0, hi), lo) == []
    decreases hi
  {
    if hi > 0 {
      AboveNothing(p, tid, snap, lo, hi - 1);
      var before := Scan(p, tid, snap, 0, hi - 1);
      if Shows(p, tid, snap, hi) {
        assert (before + [p[hi].row])[..|before|] == before;
      } else {
        assert before + [] == before;
      }
    }
  }

  /** A page query answers the page of what the full query would answer. */
  lemma PageOfWhole(db: Store, x: string, snap: nat, kind: Kind)
    requires PartitionsOk(db) && kind.Page?
    ensures Answer(db, x, snap, kind) == PageOf(QueryPartitions(db, x, snap), kind)
  {
    if IsLive(db, x) {
      ScanAbove(db.partitions, db.tables[x].id, snap, if kind.last > 0 then kind.last else 0, db.lastPartition);
    }
  }

  /** Locals hold after thread i moved to pc with the ledger at l. */
  lemma LocalsKept(l: Ledger, l': Ledger, pcs: seq<Pc>, i: nat, pc: Pc)
    requires i < |pcs| && Locals(l, pcs) && LocalOk(l', pc)
    requires forall j :: 0 <= j < |pcs| && j != i ==> LocalOk(l', pcs[j]) && Apart(pc, pcs[j]) && Apart(pcs[j], pc)
    ensures Locals(l', pcs[i := pc])
  {
  }

  // ---- The cache ----

  /** The step of thread i to pc keeps the cache coherent: it adds only a value
      just read, changes reads only where it owes an invalidation or nothing was
      readable, and pays an invalidation by leaving no key of the table. */
  ghost predicate CacheCare(s: State, s': State, i: nat, pc: Pc)
    requires i < |s.pcs|
  {
    && s'.pcs == s.pcs[i := pc]
    && (forall e, x, snap: nat :: e in s'.cache && e !in s.cache && e.key == CacheKey(x, snap) ==>
          QueryPartitions(s'.l.db, x, snap) == Some(e.value))
    && (forall x, snap: nat :: QueryPartitions(s'.l.db, x, snap) == QueryPartitions(s.l.db, x, snap)
          || QueryPartitions(s.l.db, x, snap) == None || pc.Clears(x))
    && (forall x :: s.pcs[i].Clears(x) && !pc.Clears(x) ==>
          forall e, snap: nat :: e in s'.cache ==> e.key != CacheKey(x, snap))
  }

  lemma CoherentKept(s: State, s': State, i: nat, pc: Pc)
    requires i < |s.pcs| && Coherent(s) && CacheCare(s, s', i, pc)
    ensures Coherent(s')
  {
    forall e, x, snap: nat | e in s'.cache ensures Fresh(s'.l, s'.pcs, e, x, snap) {
      if e.key == CacheKey(x, snap) {
        if pc.Clears(x) {
          assert s'.pcs[i].Clears(x);
        } else if e in s.cache {
          assert Fresh(s.l, s.pcs, e, x, snap);
          if Pending(s.pcs, x) {
            var j :| 0 <= j < |s.pcs| && s.pcs[j].Clears(x);
            assert j != i && s'.pcs[j].Clears(x);
          }
        }
      }
    }
  }

  /** Invalidating a table by prefix only drops entries, and leaves none of its keys. */
  lemma ClearedCache(s: State, x: string)
    ensures forall e :: e in Cleared(s, x).cache ==> e in s.cache
    ensures forall e, snap: nat :: e in Cleared(s, x).cache ==> e.key != CacheKey(x, snap)
  {
    var c := Cleared(s, x).cache;
    WithoutMembers(s.cache, TablePred(x));
    forall e | e in c ensures e in s.cache && forall snap: nat :: e.key != CacheKey(x, snap) {
      var k :| 0 <= k < |c| && c[k] == e;
      forall snap: nat ensures e.key != CacheKey(x, snap) {
        PrefixReach(x, x, snap);
      }
    }
  }

  lemma GetCache(es: seq<Entry<string, Rows>>, capacity: nat, k: string)
    ensures forall e :: e in Step(es, capacity, Get(k)) ==> e in es
  {
    forall e | e in Step(es, capacity, Get(k)) ensures e in es {
      HeldBefore(es, capacity, Get(k), e);
    }
  }

  lemma PutCache(es: seq<Entry<string, Rows>>, capacity: nat, k: string, v: Rows)
    ensures forall e :: e in Step(es, capacity, Put(k, v)) ==> e in es || e == Entry(k, v)
  {
    forall e | e in Step(es, capacity, Put(k, v)) ensures e in es || e == Entry(k, v) {
      if e.key == k {
        HeldAfterPut(es, capacity, k, v, e);
      } else {
        HeldBefore(es, capacity, Put(k, v), e);
      }
    }
  }

  // ---- The registry ----

  lemma GateLocal(s: State, i: nat)
    requires i < |s.pcs| && CanGo(s, i) && s.pcs[i].Gated() && LocalOk(s.l, s.pcs[i])
    ensures |GateNext(s, i).pcs| == |s.pcs| && LocalOk(s.l, GateNext(s, i).pcs[i])
    ensures !GateNext(s, i).pcs[i].CommitWrite?
  {
  }

  lemma GateInv(s: State, i: nat)
    requires i < |s.pcs| && CanGo(s, i) && s.pcs[i].Gated() && Inv(s)
    ensures Inv(GateNext(s, i))
  {
    var s' := GateNext(s, i);
    GateGuards(s, i);
    ExclusiveKept(s.pcs, i, s'.pcs[i]);
    assert LocalOk(s.l, s.pcs[i]);
    GateLocal(s, i);
    LocalsKept(s.l, s.l, s.pcs, i, s'.pcs[i]);
    assert CacheCare(s, s', i, s'.pcs[i]);
    CoherentKept(s, s', i, s'.pcs[i]);
  }

  // ---- Readers ----

  lemma ReadLocals(s: State, i: nat, ok: bool)
    requires i < |s.pcs| && MayWork(s, i) && Inv(s)
    ensures Locals(s.l, ReadNext(s, i, ok).pcs)
  {
    var s', pc := ReadNext(s, i, ok), s.pcs[i];
    ReadGuards(s, i, ok);
    if pc.ReadQuery? && pc.kind.Page? {
      PageOfWhole(s.l.db, pc.t, pc.snap, pc.kind);
    }
    LocalsKept(s.l, s.l, s.pcs, i, s'.pcs[i]);
  }

  lemma ReadCache(s: State, i: nat, ok: bool)
    requires i < |s.pcs| && MayWork(s, i) && Inv(s)
    ensures Coherent(ReadNext(s, i, ok))
  {
    ReadGuards(s, i, ok);
    assert LocalOk(s.l, s.pcs[i]);
    ReadCares(s, i, ok);
    CoherentKept(s, ReadNext(s, i, ok), i, ReadNext(s, i, ok).pcs[i]);
  }

  lemma ReadCares(s: State, i: nat, ok: bool)
    requires i < |s.pcs| && MayWork(s, i) && LocalOk(s.l, s.pcs[i])
    requires |ReadNext(s, i, ok).pcs| == |s.pcs| && ReadNext(s, i, ok).pcs == s.pcs[i := ReadNext(s, i, ok).pcs[i]]
    ensures CacheCare(s, ReadNext(s, i, ok), i, ReadNext(s, i, ok).pcs[i])
  {
    var s', pc := ReadNext(s, i, ok), s.pcs[i];
    if pc.ReadLookup? {
      GetCache(s.cache, s.capacity, CacheKey(pc.t, pc.snap));
    } else if pc.ReadPut? {
      PutCache(s.cache, s.capacity, CacheKey(pc.t, pc.snap), pc.rows);
      forall e, x, snap: nat | e in s'.cache && e !in s.cache && e.key == CacheKey(x, snap)
        ensures QueryPartitions(s'.l.db, x, snap) == Some(e.value)
      {
        KeyIsFaithful(x, snap, pc.t, pc.snap);
      }
    }
  }

  lemma ReadInv(s: State, i: nat, ok: bool)
    requires i < |s.pcs| && MayWork(s, i) && Inv(s)
    ensures Inv(ReadNext(s, i, ok))
  {
    ReadGuards(s, i, ok);
    ExclusiveKept(s.pcs, i, ReadNext(s, i, ok).pcs[i]);
    ReadLocals(s, i, ok);
    ReadCache(s, i, ok);
  }

  // ---- Commits ----

  /** A step that at most moves id sequences on, and neither fills nor owes the cache anything. */
  lemma DrawnCache(s: State, s': State, i: nat, pc: Pc, snapshots: nat, partitions: nat, tables: nat)
    requires i < |s.pcs| && Inv(s)
    requires s'.pcs == s.pcs[i := pc] && s'.cache == s.cache && s'.l == Drawn(s.l, tables, snapshots, partitions)
    requires forall x :: s.pcs[i].Clears(x) ==> pc.Clears(x)
    ensures Coherent(s')
  {
    DrawnOk(s.l, tables, snapshots, partitions);
    CoherentKept(s, s', i, pc);
  }

  lemma DrawnLocals(s: State, i: nat, pc: Pc, tables: nat, snapshots: nat, partitions: nat)
    requires i < |s.pcs| && Inv(s)
    requires LocalOk(Drawn(s.l, tables, snapshots, partitions), pc)
    requires forall j :: 0 <= j < |s.pcs| && j != i ==> Apart(pc, s.pcs[j]) && Apart(s.pcs[j], pc)
    ensures Locals(Drawn(s.l, tables, snapshots, partitions), s.pcs[i := pc])
  {
    forall j | 0 <= j < |s.pcs| && j != i ensures LocalOk(Drawn(s.l, tables, snapshots, partitions), s.pcs[j]) {
      LocalKeptDrawn(s.l, tables, snapshots, partitions, s.pcs[j]);
    }
    LocalsKept(s.l, Drawn(s.l, tables, snapshots, partitions), s.pcs, i, pc);
  }

  /** The ids drawn in a step of a commit. */
  function Draws(s: State, i: nat, ok: bool, gap: nat): (nat, nat)
    requires i < |s.pcs|
  {
    var pc := s.pcs[i];
    if pc.CommitOpen? then ((if ok && IsLive(s.l.db, pc.t) then gap + 1 else gap), 0)
    else if pc.CommitWrite? then (0, if !ok then gap else if |pc.added| < |pc.req.added| then gap + 1 else 0)
    else (0, 0)
  }

  predicate Publishes(s: State, i: nat, ok: bool)
    requires i < |s.pcs|
  {
    var pc := s.pcs[i];
    pc.CommitWrite? && ok && |pc.added| >= |pc.req.added| && pc.marked >= |pc.req.deleted|
  }

  lemma CommitDraws(s: State, i: nat, ok: bool, gap: nat)
    requires i < |s.pcs| && MayWork(s, i) && !Publishes(s, i, ok)
    ensures CommitNext(s, i, ok, gap).l == Drawn(s.l, 0, Draws(s, i, ok, gap).0, Draws(s, i, ok, gap).1)
  {
  }

  /** The snapshot INSERT draws a number above everything the table has. */
  lemma OpenedLocal(s: State, i: nat, gap: nat)
    requires i < |s.pcs| && Inv(s) && s.pcs[i].CommitOpen? && IsLive(s.l.db, s.pcs[i].t) && MayWork(s, i)
    ensures LocalOk(CommitNext(s, i, true, gap).l, CommitNext(s, i, true, gap).pcs[i])
    ensures forall j :: 0 <= j < |s.pcs| && j != i ==>
      Apart(CommitNext(s, i, true, gap).pcs[i], s.pcs[j]) && Apart(s.pcs[j], CommitNext(s, i, true, gap).pcs[i])
  {
    var pc, pc' := s.pcs[i], CommitNext(s, i, true, gap).pcs[i];
    assert LocalOk(s.l, pc);
    OpenedWriting(s.l, pc.t, pc.req, gap);
    forall j | 0 <= j < |s.pcs| && j != i ensures Apart(pc', s.pcs[j]) && Apart(s.pcs[j], pc') {
      assert LocalOk(s.l, s.pcs[j]);
    }
  }

  lemma OpenedWriting(l: Ledger, x: string, req: Request, gap: nat)
    requires Shape(l) && IsLive(l.db, x) && (req.parent == l.db.tables[x].current || req.parent == 0)
    ensures var l' := Drawn(l, 0, gap + 1, 0);
      Writing(l', x, l.db.tables[x].id, l'.db.lastSnapshot, l.db.lastPartition, req, [])
  {
  }

  /** A partition INSERT draws an id above all rows and all ids other open commits hold. */
  lemma InsertedLocal(s: State, i: nat, gap: nat)
    requires i < |s.pcs| && Inv(s) && s.pcs[i].CommitWrite? && |s.pcs[i].added| < |s.pcs[i].req.added| && MayWork(s, i)
    ensures LocalOk(CommitNext(s, i, true, gap).l, CommitNext(s, i, true, gap).pcs[i])
    ensures forall j :: 0 <= j < |s.pcs| && j != i ==>
      Apart(CommitNext(s, i, true, gap).pcs[i], s.pcs[j]) && Apart(s.pcs[j], CommitNext(s, i, true, gap).pcs[i])
  {
    var pc, pc' := s.pcs[i], CommitNext(s, i, true, gap).pcs[i];
    assert LocalOk(s.l, pc);
    WritingGrows(s.l, pc.t, pc.tid, pc.n, pc.base, pc.req, pc.added, gap);
    forall j | 0 <= j < |s.pcs| && j != i ensures Apart(pc', s.pcs[j]) && Apart(s.pcs[j], pc') {
      InsertedApart(s.l, pc, pc', s.pcs[j]);
    }
  }

  lemma InsertedApart(l: Ledger, pc: Pc, pc': Pc, other: Pc)
    requires pc.CommitWrite? && pc'.CommitWrite? && pc'.n == pc.n && |pc'.added| == |pc.added| + 1
    requires pc'.added[..|pc.added|] == pc.added && pc'.added[|pc.added|].id > l.db.lastPartition
    requires LocalOk(l, other) && Apart(pc, other) && Apart(other, pc)
    ensures Apart(pc', other) && Apart(other, pc')
  {
    if other.CommitWrite? {
      forall i, j | 0 <= i < |pc'.added| && 0 <= j < |other.added| ensures pc'.added[i].id != other.added[j].id {
        if i < |pc.added| {
          assert pc'.added[i] == pc.added[i];
        }
      }
    }
  }

  lemma CommitLocal(s: State, i: nat, ok: bool, gap: nat)
    requires i < |s.pcs| && Inv(s) && MayWork(s, i) && !Publishes(s, i, ok)
    ensures LocalOk(CommitNext(s, i, ok, gap).l, CommitNext(s, i, ok, gap).pcs[i])
    ensures forall j :: 0 <= j < |s.pcs| && j != i ==>
      Apart(CommitNext(s, i, ok, gap).pcs[i], s.pcs[j]) && Apart(s.pcs[j], CommitNext(s, i, ok, gap).pcs[i])
  {
    var pc := s.pcs[i];
    assert LocalOk(s.l, pc);
    if pc.CommitOpen? && ok && IsLive(s.l.db, pc.t) {
      OpenedLocal(s, i, gap);
    } else if pc.CommitWrite? && ok && |pc.added| < |pc.req.added| {
      InsertedLocal(s, i, gap);
    }
  }

  lemma DrawingCommitInv(s: State, i: nat, ok: bool, gap: nat)
    requires i < |s.pcs| && MayWork(s, i) && Inv(s) && !Publishes(s, i, ok)
    ensures Inv(CommitNext(s, i, ok, gap))
  {
    var s', d := CommitNext(s, i, ok, gap), Draws(s, i, ok, gap);
    CommitGuards(s, i, ok, gap);
    ExclusiveKept(s.pcs, i, s'.pcs[i]);
    CommitDraws(s, i, ok, gap);
    DrawnOk(s.l, 0, d.0, d.1);
    CommitLocal(s, i, ok, gap);
    DrawnLocals(s, i, s'.pcs[i], 0, d.0, d.1);
    DrawingCommitCache(s, i, ok, gap);
  }

  lemma DrawingCommitCache(s: State, i: nat, ok: bool, gap: nat)
    requires i < |s.pcs| && MayWork(s, i) && Inv(s) && !Publishes(s, i, ok)
    ensures Coherent(CommitNext(s, i, ok, gap))
  {
    var s', d := CommitNext(s, i, ok, gap), Draws(s, i, ok, gap);
    CommitGuards(s, i, ok, gap);
    CommitDraws(s, i, ok, gap);
    if s.pcs[i].CommitClear? {
      ClearedCache(s, s.pcs[i].t);
      CoherentKept(s, s', i, s'.pcs[i]);
    } else {
      DrawnCache(s, s', i, s'.pcs[i], d.0, d.1, 0);
    }
  }

  lemma PublishingOther(s: State, i: nat, j: nat)
    requires i < |s.pcs| && j < |s.pcs| && i != j && s.pcs[i].CommitWrite?
    requires Shape(s.l) && Exclusive(s.pcs) && Locals(s.l, s.pcs)
    ensures LocalOk(Published(s.l, s.pcs[i].t, s.pcs[i].n, s.pcs[i].req, s.pcs[i].added), s.pcs[j])
  {
    var w, pc := s.pcs[i], s.pcs[j];
    assert LocalOk(s.l, w) && LocalOk(s.l, pc) && Apart(w, pc);
    assert w.t in w.Excl();
    LocalKeptPublished(s.l, w.t, w, pc);
  }

  lemma PublishingLocals(s: State, i: nat)
    requires i < |s.pcs| && Inv(s) && Publishes(s, i, true) && MayWork(s, i)
    ensures Locals(CommitNext(s, i, true, 0).l, CommitNext(s, i, true, 0).pcs)
  {
    var w := s.pcs[i];
    assert LocalOk(s.l, w);
    var l' := Published(s.l, w.t, w.n, w.req, w.added);
    forall j | 0 <= j < |s.pcs| && j != i ensures LocalOk(l', s.pcs[j]) {
      PublishingOther(s, i, j);
    }
    LocalsKept(s.l, l', s.pcs, i, CommitClear(w.t, w.n));
  }

  lemma PublishingCache(s: State, i: nat)
    requires i < |s.pcs| && Inv(s) && Publishes(s, i, true) && MayWork(s, i)
    ensures Coherent(CommitNext(s, i, true, 0))
  {
    var w, s' := s.pcs[i], CommitNext(s, i, true, 0);
    assert LocalOk(s.l, w);
    forall x, snap: nat | x != w.t
      ensures QueryPartitions(s'.l.db, x, snap) == QueryPartitions(s.l.db, x, snap)
    {
      PublishedQuery(s.l, w.t, w.tid, w.n, w.base, w.req, w.added, x, snap);
    }
    CoherentKept(s, s', i, s'.pcs[i]);
  }

  lemma PublishingInv(s: State, i: nat, gap: nat)
    requires i < |s.pcs| && MayWork(s, i) && Inv(s) && Publishes(s, i, true)
    ensures Inv(CommitNext(s, i, true, gap))
  {
    var w := s.pcs[i];
    assert LocalOk(s.l, w);
    assert CommitNext(s, i, true, gap) == CommitNext(s, i, true, 0);
    CommitGuards(s, i, true, 0);
    ExclusiveKept(s.pcs, i, CommitNext(s, i, true, 0).pcs[i]);
    PublishedOk(s.l, w.t, w.tid, w.n, w.base, w.req, w.added);
    PublishingLocals(s, i);
    PublishingCache(s, i);
  }

  // ---- Catalog operations ----

  lemma EffectCare(l: Ledger, op: Ddl, x: string, snap: nat)
    requires Ok(l) && Effect(l, op).Some?
    ensures
      || QueryPartitions(Effect(l, op).value.db, x, snap) == QueryPartitions(l.db, x, snap)
      || QueryPartitions(l.db, x, snap) == None
      || (x == op.name && (op.Rename? || op.Drop?) && IsLive(l.db, x))
  {
    if x !in op.Names() || op.Alter? {
      EffectQuery(l, op, x, snap);
    } else if op.Create? {
      EffectTarget(l, op, x, snap);
    } else if op.Rename? && x != op.name && IsLive(l.db, op.name) {
      EffectTarget(l, op, x, snap);
    }
  }

  lemma RunningDdlInv(s: State, i: nat, ok: bool, gap: nat)
    requires i < |s.pcs| && MayWork(s, i) && Inv(s) && s.pcs[i].DdlRun?
    ensures Inv(DdlNext(s, i, ok, gap))
  {
    var s', op, l := DdlNext(s, i, ok, gap), s.pcs[i].op, Drawn(s.l, gap, 0, 0);
    DdlGuards(s, i, ok, gap);
    ExclusiveKept(s.pcs, i, s'.pcs[i]);
    DrawnOk(s.l, gap, 0, 0);
    if ok && Effect(l, op).Some? {
      EffectOk(l, op);
      RunningDdlLocals(s, i, gap);
      forall x, snap: nat
        ensures QueryPartitions(s'.l.db, x, snap) == QueryPartitions(s.l.db, x, snap)
          || QueryPartitions(s.l.db, x, snap) == None || s'.pcs[i].Clears(x)
      {
        EffectCare(l, op, x, snap);
      }
      CoherentKept(s, s', i, s'.pcs[i]);
    } else {
      DrawnLocals(s, i, s'.pcs[i], gap, 0, 0);
      DrawnCache(s, s', i, s'.pcs[i], 0, 0, gap);
    }
  }

  lemma LocalKeptDdl(l: Ledger, op: Ddl, gap: nat, pc: Pc)
    requires Ok(l) && LocalOk(l, pc) && Effect(Drawn(l, gap, 0, 0), op).Some?
    requires forall x :: x in op.Names() ==> x !in pc.Excl() && x !in pc.Shared()
    ensures LocalOk(Effect(Drawn(l, gap, 0, 0), op).value, pc)
  {
    LocalKeptDrawn(l, gap, 0, 0, pc);
    LocalKeptEffect(Drawn(l, gap, 0, 0), op, pc);
  }

  lemma RunningDdlLocals(s: State, i: nat, gap: nat)
    requires i < |s.pcs| && MayWork(s, i) && Inv(s) && s.pcs[i].DdlRun?
    requires Effect(Drawn(s.l, gap, 0, 0), s.pcs[i].op).Some?
    ensures Locals(DdlNext(s, i, true, gap).l, DdlNext(s, i, true, gap).pcs)
  {
    var s', op := DdlNext(s, i, true, gap), s.pcs[i].op;
    assert forall x :: x in op.Names() ==> x in s.pcs[i].Excl();
    forall j | 0 <= j < |s.pcs| && j != i ensures LocalOk(s'.l, s.pcs[j]) {
      LocalKeptDdl(s.l, op, gap, s.pcs[j]);
    }
    LocalsKept(s.l, s'.l, s.pcs, i, s'.pcs[i]);
  }

  /** The other steps of a catalog operation leave the ledger alone. */
  lemma QuietDdl(s: State, i: nat, ok: bool, gap: nat)
    requires i < |s.pcs| && MayWork(s, i) && !s.pcs[i].DdlRun? && LocalOk(s.l, s.pcs[i])
    requires |DdlNext(s, i, ok, gap).pcs| == |s.pcs|
    ensures DdlNext(s, i, ok, gap).l == s.l
    ensures LocalOk(s.l, DdlNext(s, i, ok, gap).pcs[i])
    ensures DdlNext(s, i, ok, gap).pcs[i].CommitWrite? ==> DdlNext(s, i, ok, gap).pcs[i] == s.pcs[i]
  {
  }

  lemma QuietDdlCache(s: State, i: nat, ok: bool, gap: nat)
    requires i < |s.pcs| && MayWork(s, i) && !s.pcs[i].DdlRun? && Coherent(s)
    ensures Coherent(DdlNext(s, i, ok, gap))
  {
    var s' := DdlNext(s, i, ok, gap);
    DdlGuards(s, i, ok, gap);
    if s.pcs[i].DdlClear? {
      ClearedCache(s, s.pcs[i].op.name);
    }
    CoherentKept(s, s', i, s'.pcs[i]);
  }

  lemma DdlInv(s: State, i: nat, ok: bool, gap: nat)
    requires i < |s.pcs| && MayWork(s, i) && Inv(s)
    ensures Inv(DdlNext(s, i, ok, gap))
  {
    if s.pcs[i].DdlRun? {
      RunningDdlInv(s, i, ok, gap);
    } else {
      var s' := DdlNext(s, i, ok, gap);
      DdlGuards(s, i, ok, gap);
      ExclusiveKept(s.pcs, i, s'.pcs[i]);
      assert LocalOk(s.l, s.pcs[i]);
      QuietDdl(s, i, ok, gap);
      LocalsKept(s.l, s.l, s.pcs, i, s'.pcs[i]);
      QuietDdlCache(s, i, ok, gap);
    }
  }

  // ---- The ledger after a step ----

  lemma PublishingNext(s: State, i: nat, gap: nat)
    requires i < |s.pcs| && Publishes(s, i, true) && s.pcs[i].t in s.l.db.tables
    ensures Enabled(s, Go(i, true, gap))
    ensures Next(s, Go(i, true, gap)).l == Published(s.l, s.pcs[i].t, s.pcs[i].n, s.pcs[i].req, s.pcs[i].added)
  {
  }

  lemma DdlRunNext(s: State, i: nat, ok: bool, gap: nat)
    requires i < |s.pcs| && s.pcs[i].DdlRun?
    ensures Enabled(s, Go(i, ok, gap))
    ensures
      var l := Drawn(s.l, gap, 0, 0);
      var r := if ok then Effect(l, s.pcs[i].op) else None;
      Next(s, Go(i, ok, gap)).l == if r.Some? then r.value else l
  {
  }

  /** The steps that publish a commit or run a catalog operation. */
  predicate Writes(s: State, a: Action)
    requires Enabled(s, a)
  {
    a.Go? && (Publishes(s, a.i, a.ok) || s.pcs[a.i].DdlRun?)
  }

  /** All others at most draw ids. */
  lemma QuietNext(s: State, a: Action) returns (snapshots: nat, partitions: nat)
    requires Enabled(s, a) && !Writes(s, a)
    ensures Next(s, a).l == Drawn(s.l, 0, snapshots, partitions)
  {
    snapshots, partitions := 0, 0;
    assert Drawn(s.l, 0, 0, 0) == s.l;
    if a.Go? && !s.pcs[a.i].Gated() && !(s.pcs[a.i].ReadLock? || s.pcs[a.i].Shared() != {}) {
      CommitDraws(s, a.i, a.ok, a.gap);
      var d := Draws(s, a.i, a.ok, a.gap);
      if ThreadNext(s, a.i, a.ok, a.gap) == CommitNext(s, a.i, a.ok, a.gap) {
        snapshots, partitions := d.0, d.1;
      }
    }
  }

  // ---- Every step, every run ----

  lemma ArriveInv(s: State, i: nat, request: Pc)
    requires Inv(s) && Enabled(s, Arrive(i, request))
    ensures Inv(At(s, i, request))
  {
    ExclusiveKept(s.pcs, i, request);
    LocalsKept(s.l, s.l, s.pcs, i, request);
    CoherentKept(s, At(s, i, request), i, request);
  }

  lemma StepInv(s: State, a: Action)
    requires Inv(s) && Enabled(s, a)
    ensures Inv(Next(s, a))
  {
    match a
    case Arrive(i, request) => ArriveInv(s, i, request);
    case Go(i, ok, gap) =>
      if s.pcs[i].Gated() {
        GateInv(s, i);
      } else if ThreadNext(s, i, ok, gap) == ReadNext(s, i, ok) {
        ReadInv(s, i, ok);
      } else if ThreadNext(s, i, ok, gap) == DdlNext(s, i, ok, gap) {
        DdlInv(s, i, ok, gap);
      } else if Publishes(s, i, ok) {
        PublishingInv(s, i, gap);
      } else {
        DrawingCommitInv(s, i, ok, gap);
      }
    case CounterMoves =>
  }

  /** The invariant holds after every run, of any number of threads, from the start. */
  lemma {:induction false} RunInv(s: State, acts: seq<Action>)
    requires Inv(s) && Runs(s, acts)
    ensures Inv(After(s, acts))
    decreases |acts|
  {
    if acts != [] {
      StepInv(s, acts[0]);
      RunInv(Next(s, acts[0]), acts[1..]);
    }
  }
}
