/** What readers of the server get, in every state of every run. */
module Reads {
  import opened Options
  import opened CacheKeys
  import opened Recency
  import opened Store
  import opened Replay
  import opened Chain
  import opened History
  import opened Catalog
  import opened Registry
  import opened Serving
  import opened Invariant

  // ---- Reading is replaying ----

  /** In every reachable state, a read of a live table at any snapshot number
      returns, row for row and in order, the replay of the table's commits. */
  lemma ReadsReplayTheLog(threads: nat, capacity: nat, connections: nat, acts: seq<Action>, x: string, snap: nat)
    requires capacity >= 1 && Runs(Start(threads, capacity, connections), acts)
    ensures
      var l := After(Start(threads, capacity, connections), acts).l;
      IsLive(l.db, x) && snap <= MAX_BIGINT ==>
        QueryPartitions(l.db, x, snap) == Some(Replayed(l.log, l.db.tables[x].id, snap))
  {
    StartInv(threads, capacity, connections);
    RunInv(Start(threads, capacity, connections), acts);
    var l := After(Start(threads, capacity, connections), acts).l;
    if IsLive(l.db, x) {
      assert Scan(l.db.partitions, l.db.tables[x].id, snap, 0, l.db.lastPartition) ==
        Replayed(l.log, l.db.tables[x].id, snap);
    }
  }

  /** A table has forked when a snapshot of it lies below its root. */
  ghost predicate Forked(l: Ledger, tid: nat) {
    exists n :: n in Parents(l.db.snapshots, tid) && n < Root(l.roots, tid)
  }

  /** What a table showed when the history of snap began anew: nothing unless it has forked. */
  function Lost(l: Ledger, tid: nat, snap: nat): seq<PartitionRow> {
    var base := Base(Parents(l.db.snapshots, tid), snap);
    if base == 0 then [] else Replayed(l.log, tid, base - 1)
  }

  lemma LogFromRoot(l: Ledger, tid: nat, n: nat)
    requires LogOk(l.db, l.log) && !Forked(l, tid) && n in l.log && l.log[n].tableId == tid
    ensures Root(l.roots, tid) <= n
  {
    assert n in Parents(l.db.snapshots, tid);
  }

  lemma UnforkedBase(l: Ledger, x: string, snap: nat)
    requires x in l.db.tables && HistoryOk(l.db, l.roots, x) && !Forked(l, l.db.tables[x].id)
    requires snap in Parents(l.db.snapshots, l.db.tables[x].id)
    ensures var tid := l.db.tables[x].id; Base(Parents(l.db.snapshots, tid), snap) == Root(l.roots, tid)
  {
    var tid := l.db.tables[x].id;
    RootIsBase(Parents(l.db.snapshots, tid), Root(l.roots, tid), l.db.tables[x].current, snap);
  }

  lemma NothingLost(l: Ledger, x: string, snap: nat)
    requires LogOk(l.db, l.log) && x in l.db.tables && HistoryOk(l.db, l.roots, x) && !Forked(l, l.db.tables[x].id)
    requires snap in Parents(l.db.snapshots, l.db.tables[x].id)
    ensures Lost(l, l.db.tables[x].id, snap) == []
  {
    var tid := l.db.tables[x].id;
    UnforkedBase(l, x, snap);
    NothingBelowRoot(l, tid);
  }

  lemma NothingBelowRoot(l: Ledger, tid: nat)
    requires LogOk(l.db, l.log) && !Forked(l, tid)
    ensures Root(l.roots, tid) != 0 ==> Replayed(l.log, tid, Root(l.roots, tid) - 1) == []
  {
    if Root(l.roots, tid) != 0 {
      forall n | n in l.log && l.log[n].tableId == tid ensures Root(l.roots, tid) <= n {
        LogFromRoot(l, tid, n);
      }
      ReplayedFurther(l.log, tid, 0, Root(l.roots, tid) - 1);
    }
  }

  /** ids is the chain of a committed snapshot. */
  ghost predicate OnChain(l: Ledger, x: string, snap: nat, ids: seq<nat>)
    requires x in l.db.tables
  {
    var parents := Parents(l.db.snapshots, l.db.tables[x].id);
    snap in parents && IsWalk(parents, snap, ids)
  }

  /** The chain from a snapshot covers the commits from its base on. */
  lemma WalkCovers(l: Ledger, x: string, snap: nat, ids: seq<nat>)
    requires LogOk(l.db, l.log) && x in l.db.tables && HistoryOk(l.db, l.roots, x) && OnChain(l, x, snap, ids)
    ensures var tid := l.db.tables[x].id; var base := Base(Parents(l.db.snapshots, tid), snap);
      0 < base <= snap && Covers(l.log, tid, ids, base, snap)
  {
    var tid := l.db.tables[x].id;
    var parents, root, current := Parents(l.db.snapshots, tid), Root(l.roots, tid), l.db.tables[x].current;
    ChainMembers(parents, root, current, snap, ids);
    FirstHasNoParent(parents, root, current, snap);
    forall n ensures n in parents <==> n in l.log && l.log[n].tableId == tid {
    }
  }

  lemma LogOverLost(l: Ledger, x: string, snap: nat, ids: seq<nat>)
    requires LogOk(l.db, l.log) && x in l.db.tables && HistoryOk(l.db, l.roots, x) && OnChain(l, x, snap, ids)
    ensures forall n :: n in ids ==> n in l.log
    ensures OverLost(Replayed(l.log, l.db.tables[x].id, snap), Lost(l, l.db.tables[x].id, snap), l.log, ids)
  {
    WalkCovers(l, x, snap, ids);
    CoveredOverLost(l, l.db.tables[x].id, ids, Base(Parents(l.db.snapshots, l.db.tables[x].id), snap), snap);
  }

  lemma CoveredOverLost(l: Ledger, tid: nat, ids: seq<nat>, base: nat, snap: nat)
    requires base == Base(Parents(l.db.snapshots, tid), snap)
    requires 0 < base <= snap && Covers(l.log, tid, ids, base, snap)
    ensures forall n :: n in ids ==> n in l.log
    ensures OverLost(Replayed(l.log, tid, snap), Lost(l, tid, snap), l.log, ids)
  {
    ReplayBehindLost(l.log, tid, ids, base, snap);
  }

  /** The rows are a chain's own replay behind those lost rows that the chain never
      deletes; so they are the chain's own replay iff it deletes them all. */
  ghost predicate OverLost(rows: seq<PartitionRow>, lost: seq<PartitionRow>, log: map<nat, Delta>, ids: seq<nat>)
    requires forall n :: n in ids ==> n in log
  {
    && rows == DropKeys(lost, DeletedBy(log, ids)) + ReplayOnto(log, [], ids)
    && (rows == ReplayOnto(log, [], ids) <==> forall i :: 0 <= i < |lost| ==> lost[i].data.key in DeletedBy(log, ids))
  }

  /** The read at any committed snapshot, on a table that has forked or not, is the
      replay, oldest first from empty, of that snapshot's own chain, behind those rows
      of earlier histories that the chain never deletes; so it is the chain's own
      replay iff the chain deletes them all, and a table that has not forked has none. */
  lemma ReadsReplayTheChain(l: Ledger, x: string, snap: nat, ids: seq<nat>)
    requires Ok(l) && IsLive(l.db, x) && snap <= MAX_BIGINT && OnChain(l, x, snap, ids)
    ensures QueryPartitions(l.db, x, snap).Some? && forall n :: n in ids ==> n in l.log
    ensures OverLost(QueryPartitions(l.db, x, snap).value, Lost(l, l.db.tables[x].id, snap), l.log, ids)
    ensures !Forked(l, l.db.tables[x].id) ==> Lost(l, l.db.tables[x].id, snap) == []
  {
    var tid := l.db.tables[x].id;
    assert HistoryOk(l.db, l.roots, x);
    LogOverLost(l, x, snap, ids);
    assert Scan(l.db.partitions, tid, snap, 0, l.db.lastPartition) == Replayed(l.log, tid, snap);
    if !Forked(l, tid) {
      NothingLost(l, x, snap);
    }
  }

  // ---- The latest snapshot ----

  /** The rows of a table without a tombstone, in id order. */
  function LiveRows(parts: map<nat, Tuple>, tid: nat, hi: nat): seq<PartitionRow> {
    if hi == 0 then []
    else LiveRows(parts, tid, hi - 1) +
         if hi in parts && parts[hi].row.tableId == tid && !parts[hi].isDeleted then [parts[hi].row] else []
  }

  lemma {:induction false} ScanIsLiveRows(parts: map<nat, Tuple>, tid: nat, snap: nat, hi: nat)
    requires forall p :: p in parts && parts[p].row.tableId == tid ==>
      parts[p].row.snapshotId <= snap && parts[p].deletedSnapshotId <= snap
    ensures Scan(parts, tid, snap, 0, hi) == LiveRows(parts, tid, hi)
  {
    if hi > 0 {
      ScanIsLiveRows(parts, tid, snap, hi - 1);
    }
  }

  /** Reading at or above the current snapshot returns exactly the live rows. */
  lemma LatestReadIsLiveRows(l: Ledger, x: string, snap: nat)
    requires Ok(l) && IsLive(l.db, x) && l.db.tables[x].current <= snap <= MAX_BIGINT
    ensures QueryPartitions(l.db, x, snap) == Some(LiveRows(l.db.partitions, l.db.tables[x].id, l.db.lastPartition))
  {
    ScanIsLiveRows(l.db.partitions, l.db.tables[x].id, snap, l.db.lastPartition);
  }

  /** At snapshot 0 every table is empty, whatever it holds now. */
  lemma NothingAtZero(l: Ledger, x: string)
    requires Ok(l) && IsLive(l.db, x)
    ensures QueryPartitions(l.db, x, 0) == Some([])
  {
    assert Scan(l.db.partitions, l.db.tables[x].id, 0, 0, l.db.lastPartition) == Replayed(l.log, l.db.tables[x].id, 0);
  }

  /** With the counter at 0 or at least at the table's pointer, "latest" means the live rows. */
  predicate LatestIsLive(db: Store, x: string, counter: nat) {
    && IsLive(db, x) && db.tables[x].current <= MAX_BIGINT && counter <= MAX_BIGINT
    && (counter == 0 || counter >= db.tables[x].current)
  }

  function RowsOf(db: Store, x: string): seq<PartitionRow>
    requires IsLive(db, x)
  {
    LiveRows(db.partitions, db.tables[x].id, db.lastPartition)
  }

  /** A request for the latest snapshot resolves to one that reads the live rows
      while the process-wide counter is 0 or at least the table's pointer; below the
      pointer it reads an old state of the table, the replay of the commits up to the counter. */
  lemma LatestReadResolution(l: Ledger, x: string, counter: nat)
    requires Ok(l) && IsLive(l.db, x) && l.db.tables[x].current <= MAX_BIGINT && counter <= MAX_BIGINT
    ensures LatestIsLive(l.db, x, counter) ==>
      QueryPartitions(l.db, x, ReadSnapshot(l.db, x, 0, counter)) == Some(RowsOf(l.db, x))
    ensures 0 < counter < l.db.tables[x].current ==>
      QueryPartitions(l.db, x, ReadSnapshot(l.db, x, 0, counter)) == Some(Replayed(l.log, l.db.tables[x].id, counter))
  {
    if counter == 0 || counter >= l.db.tables[x].current {
      LatestReadIsLiveRows(l, x, ReadSnapshot(l.db, x, 0, counter));
    } else {
      assert Scan(l.db.partitions, l.db.tables[x].id, counter, 0, l.db.lastPartition) ==
             Replayed(l.log, l.db.tables[x].id, counter);
    }
  }

  /** The counter moves when a transaction commits, by one, and at no other time. */
  lemma StepCounter(s: State, a: Action)
    requires Enabled(s, a)
    ensures Next(s, a).counter == s.counter + if a.CounterMoves? then 1 else 0
  {
  }

  function Moves(acts: seq<Action>): nat {
    if acts == [] then 0 else (if acts[0].CounterMoves? then 1 else 0) + Moves(acts[1..])
  }

  lemma {:induction false} CounterCounts(s: State, acts: seq<Action>)
    requires Runs(s, acts)
    ensures After(s, acts).counter == s.counter + Moves(acts)
    decreases |acts|
  {
    if acts != [] {
      StepCounter(s, acts[0]);
      CounterCounts(Next(s, acts[0]), acts[1..]);
    }
  }

  // ---- The cache ----

  /** A drop or rename of x has taken effect and not yet invalidated. */
  ghost predicate Owed(pcs: seq<Pc>, x: string) {
    exists j :: 0 <= j < |pcs| && pcs[j].OwesClear(x)
  }

  /** While a reader holds x, the only invalidations of x still to come are those of drops and renames. */
  lemma PendingIsOwed(s: State, i: nat, x: string)
    requires Exclusive(s.pcs) && i < |s.pcs| && x in s.pcs[i].Shared() && Pending(s.pcs, x)
    ensures Owed(s.pcs, x)
  {
    var j :| 0 <= j < |s.pcs| && s.pcs[j].Clears(x);
    assert x !in s.pcs[j].Excl();
    assert s.pcs[j].OwesClear(x);
  }

  /** With no drop or rename of its table waiting to invalidate, a hit is what the query would return. */
  lemma HitIsCurrent(s: State, i: nat)
    requires Inv(s) && i < |s.pcs| && s.pcs[i].ReadLookup? && !Owed(s.pcs, s.pcs[i].t)
    requires Find(s.cache, CacheKey(s.pcs[i].t, s.pcs[i].snap)).Some?
    ensures Find(s.cache, CacheKey(s.pcs[i].t, s.pcs[i].snap)) == QueryPartitions(s.l.db, s.pcs[i].t, s.pcs[i].snap)
  {
    var x, snap := s.pcs[i].t, s.pcs[i].snap;
    var hit := Find(s.cache, CacheKey(x, snap));
    assert Fresh(s.l, s.pcs, Entry(CacheKey(x, snap), hit.value), x, snap);
    if Pending(s.pcs, x) {
      PendingIsOwed(s, i, x);
    }
  }

  /** Whichever way a read ends, it answers what the query would answer at that
      moment: from the cache unless a drop or rename of the table has yet to
      invalidate, from the store unless the statement failed. */
  lemma ReadsAreCurrent(s: State, i: nat, ok: bool)
    requires Inv(s) && i < |s.pcs| && MayWork(s, i) && ReadNext(s, i, ok).pcs[i].ReadDone?
    requires s.pcs[i].ReadLookup? || s.pcs[i].ReadPut? || (s.pcs[i].ReadQuery? && ok)
    requires s.pcs[i].ReadLookup? ==> !Owed(s.pcs, s.pcs[i].t)
    ensures var pc := ReadNext(s, i, ok).pcs[i]; pc.result == Answer(s.l.db, pc.t, pc.snap, pc.kind)
  {
    var pc := s.pcs[i];
    assert LocalOk(s.l, pc);
    if pc.ReadLookup? {
      HitIsCurrent(s, i);
    }
  }

  lemma HitSteps(s: State, i: nat, x: string, snap: nat)
    requires i < |s.pcs| && snap != 0
    ensures s.pcs[i] == ReadLock(Waiting, x, snap, Full) && FreeForShared(s, x) ==>
      Enabled(s, Go(i, true, 0)) && Next(s, Go(i, true, 0)) == At(s, i, ReadResolve(x, snap, Full))
    ensures s.pcs[i] == ReadResolve(x, snap, Full) ==>
      Enabled(s, Go(i, true, 0)) && Next(s, Go(i, true, 0)) == At(s, i, ReadLookup(x, snap))
    ensures s.pcs[i] == ReadLookup(x, snap) && Find(s.cache, CacheKey(x, snap)).Some? ==>
      && Enabled(s, Go(i, true, 0)) && Next(s, Go(i, true, 0)).l == s.l
      && Next(s, Go(i, true, 0)).pcs == s.pcs[i := ReadDone(x, snap, Full, Find(s.cache, CacheKey(x, snap)), false)]
  {
  }

  /** From waiting for the shared lock to the answer. */
  lemma CacheHit(s: State, i: nat, x: string, snap: nat) returns (acts: seq<Action>)
    requires i < |s.pcs| && s.pcs[i] == ReadLock(Waiting, x, snap, Full) && FreeForShared(s, x) && snap != 0
    requires Find(s.cache, CacheKey(x, snap)).Some?
    ensures Runs(s, acts) && After(s, acts).l == s.l
    ensures After(s, acts).pcs == s.pcs[i := ReadDone(x, snap, Full, Find(s.cache, CacheKey(x, snap)), false)]
  {
    var go, s1, s2 := Go(i, true, 0), At(s, i, ReadResolve(x, snap, Full)), At(s, i, ReadLookup(x, snap));
    HitSteps(s, i, x, snap);
    HitSteps(s1, i, x, snap);
    assert At(s1, i, ReadLookup(x, snap)) == s2;
    HitSteps(s2, i, x, snap);
    RunFurther(s2, go, []);
    RunFurther(s1, go, [go] + []);
    RunFurther(s, go, [go] + ([go] + []));
    acts := [go] + ([go] + ([go] + []));
  }

  /** A hit needs only the shared lock: an idle thread can ask for a cached
      snapshot and be answered from the cache. */
  lemma CacheAnswers(s: State, i: nat, x: string, snap: nat) returns (acts: seq<Action>)
    requires i < |s.pcs| && s.pcs[i].Idle? && FreeForShared(s, x) && snap != 0 && s.registry.None?
    requires Find(s.cache, CacheKey(x, snap)).Some?
    ensures Runs(s, acts) && After(s, acts).l == s.l
    ensures After(s, acts).pcs == s.pcs[i := ReadDone(x, snap, Full, Find(s.cache, CacheKey(x, snap)), false)]
  {
    var asking := RequestReached(s, i, ReadLock(Asking, x, snap, Full));
    var s1 := After(s, asking);
    assert FreeForShared(s1, x);
    var reading := CacheHit(s1, i, x, snap);
    RunOn(s, asking, reading);
    acts := asking + reading;
  }

  /** What a rename to a free name or a drop makes of the readers of its table. */
  ghost predicate TakesAway(db: Store, op: Ddl) {
    IsLive(db, op.name) && (op.Drop? || (op.Rename? && op.to != op.name && op.to !in db.tables))
  }

  /** It commits and gives back its connection. */
  lemma Taking(s: State, j: nat) returns (acts: seq<Action>)
    requires RegistryOk(s) && s.registry.None? && j < |s.pcs| && s.pcs[j].DdlRun? && TakesAway(s.l.db, s.pcs[j].op)
    ensures Runs(s, acts) && RegistryOk(After(s, acts)) && After(s, acts).registry.None?
    ensures After(s, acts).pcs == s.pcs[j := AfterWork(s.pcs[j].op, Ended(true, true))]
    ensures After(s, acts).cache == s.cache && !IsLive(After(s, acts).l.db, s.pcs[j].op.name)
  {
    var go := Go(j, true, 0);
    var s1 := Next(s, go);
    assert s1.pcs[j] == DdlDone(s.pcs[j].op, Ended(true, true));
    StepRegistry(s, go);
    StepRegistry(s1, go);
    RunFurther(s1, go, []);
    RunFurther(s, go, [go] + []);
    acts := [go] + ([go] + []);
  }

  /** It unlocks what it locked. */
  lemma LettingGo(s: State, j: nat, op: Ddl, end: End) returns (acts: seq<Action>)
    requires RegistryOk(s) && s.registry.None? && j < |s.pcs| && s.pcs[j] == AfterWork(op, end) && Invalidates(op, end)
    ensures Runs(s, acts) && After(s, acts) == s.(pcs := s.pcs[j := DdlClear(op, end)])
  {
    acts := AskAndUnlock(s, j);
    if op.Rename? {
      var mid := After(s, acts);
      RunRegistry(s, acts);
      var more := AskAndUnlock(mid, j);
      RunOn(s, acts, more);
      acts := acts + more;
    }
  }

  /** Uninterrupted, such an operation ends with its guards gone and its invalidation still to do. */
  lemma TakingAway(s: State, j: nat) returns (acts: seq<Action>)
    requires RegistryOk(s) && s.registry.None? && j < |s.pcs| && s.pcs[j].DdlRun? && TakesAway(s.l.db, s.pcs[j].op)
    ensures Runs(s, acts) && After(s, acts).registry.None?
    ensures After(s, acts).pcs == s.pcs[j := DdlClear(s.pcs[j].op, Ended(true, true))]
    ensures After(s, acts).cache == s.cache && !IsLive(After(s, acts).l.db, s.pcs[j].op.name)
  {
    var first := Taking(s, j);
    var rest := LettingGo(After(s, first), j, s.pcs[j].op, Ended(true, true));
    RunOn(s, first, rest);
    acts := first + rest;
  }

  /** The handlers invalidate the table a request named after its last unlock: an alter or
      a rename whatever came of it, a drop that succeeded, and none whose call threw; and
      then no key of the table is left. */
  lemma LateInvalidation(s: State, i: nat, gap: nat)
    requires i < |s.pcs| && CanGo(s, i) && s.pcs[i].DdlRelease? && s.pcs[i].owns && s.pcs[i].op.name in s.known
    ensures
      var pc, s1 := s.pcs[i], Next(s, Go(i, true, gap));
      var invalidates := pc.end.Ended? && (pc.op.Alter? || pc.op.Rename? || (pc.op.Drop? && pc.end.ok));
      && s1.pcs == s.pcs[i := if invalidates then DdlClear(pc.op, pc.end) else Idle]
      && (invalidates ==>
            && Enabled(s1, Go(i, true, gap))
            && forall e, snap: nat :: e in Next(s1, Go(i, true, gap)).cache ==> e.key != CacheKey(pc.op.name, snap))
  {
    ClearedCache(Next(s, Go(i, true, gap)), s.pcs[i].op.name);
  }

  /** The pending invalidation matters: when a drop or rename is about to run and the
      table has a cached entry, a reader that comes after it has committed and
      released its locks can still be given that entry, though the name is gone. */
  lemma StaleRead(s: State, i: nat, j: nat, snap: nat) returns (acts: seq<Action>)
    requires Exclusive(s.pcs) && RegistryOk(s) && s.registry.None?
    requires i < |s.pcs| && j < |s.pcs| && i != j && s.pcs[i].Idle?
    requires s.pcs[j].DdlRun? && TakesAway(s.l.db, s.pcs[j].op)
    requires snap != 0 && Find(s.cache, CacheKey(s.pcs[j].op.name, snap)).Some?
    ensures Runs(s, acts) && |After(s, acts).pcs| == |s.pcs|
    ensures
      var x, s' := s.pcs[j].op.name, After(s, acts);
      && s'.pcs[i] == ReadDone(x, snap, Full, Find(s.cache, CacheKey(x, snap)), false)
      && QueryPartitions(s'.l.db, x, snap) == None
  {
    var x := s.pcs[j].op.name;
    var first := TakingAway(s, j);
    var mid := After(s, first);
    assert x in s.pcs[j].Excl();
    assert FreeForShared(mid, x);
    var rest := CacheAnswers(mid, i, x, snap);
    RunOn(s, first, rest);
    acts := first + rest;
  }
}
