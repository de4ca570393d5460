/** Whole reads: from the step that resolves a request's snapshot to its answer,
    with any steps of other threads in between. */
module ReadRuns {
  import opened Options
  import opened CacheKeys
  import opened Recency
  import opened Store
  import opened Replay
  import opened History
  import opened Catalog
  import opened Serving
  import opened Invariant
  import opened Reads
  import opened Registry

  // ---- A lock holds its table still ----

  /** x means the same table, with the same pointer and the same rows at every snapshot. */
  ghost predicate SameTable(db: Store, db': Store, x: string) {
    && TableId(db', x) == TableId(db, x) && CurrentSnapshot(db', x) == CurrentSnapshot(db, x)
    && forall snap: nat :: QueryPartitions(db', x, snap) == QueryPartitions(db, x, snap)
  }

  lemma DrawnSameTable(l: Ledger, tables: nat, snapshots: nat, partitions: nat, x: string)
    requires Ok(l)
    ensures SameTable(l.db, Drawn(l, tables, snapshots, partitions).db, x)
  {
    DrawnOk(l, tables, snapshots, partitions);
  }

  lemma CommitSameTable(s: State, j: nat, ok: bool, gap: nat, x: string)
    requires Inv(s) && j < |s.pcs| && MayWork(s, j) && x !in s.pcs[j].Excl()
    ensures SameTable(s.l.db, CommitNext(s, j, ok, gap).l.db, x)
  {
    var w := s.pcs[j];
    assert LocalOk(s.l, w);
    if Publishes(s, j, ok) {
      forall snap: nat
        ensures QueryPartitions(Published(s.l, w.t, w.n, w.req, w.added).db, x, snap) ==
          QueryPartitions(s.l.db, x, snap)
      {
        PublishedQuery(s.l, w.t, w.tid, w.n, w.base, w.req, w.added, x, snap);
      }
    } else {
      CommitDraws(s, j, ok, gap);
      DrawnSameTable(s.l, 0, Draws(s, j, ok, gap).0, Draws(s, j, ok, gap).1, x);
    }
  }

  lemma DdlSameTable(s: State, j: nat, ok: bool, gap: nat, x: string)
    requires Inv(s) && j < |s.pcs| && MayWork(s, j) && x !in s.pcs[j].Excl()
    ensures SameTable(s.l.db, DdlNext(s, j, ok, gap).l.db, x)
  {
    if s.pcs[j].DdlRun? {
      var l, op := Drawn(s.l, gap, 0, 0), s.pcs[j].op;
      DrawnSameTable(s.l, gap, 0, 0, x);
      if ok && Effect(l, op).Some? {
        DrawnOk(s.l, gap, 0, 0);
        EffectSameTable(l, op, x);
      }
    }
  }

  lemma EffectSameTable(l: Ledger, op: Ddl, x: string)
    requires TablesOk(l.db) && Effect(l, op).Some? && x !in op.Names()
    ensures SameTable(l.db, Effect(l, op).value.db, x)
  {
    EffectKeepsRow(l, op, x);
    forall snap: nat ensures QueryPartitions(Effect(l, op).value.db, x, snap) == QueryPartitions(l.db, x, snap) {
      EffectQuery(l, op, x, snap);
    }
  }

  lemma QuietSameTable(s: State, j: nat, ok: bool, gap: nat)
    requires j < |s.pcs| && CanGo(s, j) && (s.pcs[j].Gated() || s.pcs[j].ReadLock? || s.pcs[j].Shared() != {})
    ensures ThreadNext(s, j, ok, gap).l == s.l
  {
  }

  lemma ThreadSameTable(s: State, j: nat, ok: bool, gap: nat, x: string)
    requires Inv(s) && j < |s.pcs| && CanGo(s, j) && x !in s.pcs[j].Excl()
    ensures SameTable(s.l.db, ThreadNext(s, j, ok, gap).l.db, x)
  {
    if s.pcs[j].Gated() || s.pcs[j].ReadLock? || s.pcs[j].Shared() != {} {
      QuietSameTable(s, j, ok, gap);
    } else if ThreadNext(s, j, ok, gap) == DdlNext(s, j, ok, gap) {
      DdlSameTable(s, j, ok, gap, x);
    } else {
      CommitSameTable(s, j, ok, gap, x);
    }
  }

  /** No step of another thread touches a table that thread i has locked, shared or exclusively. */
  lemma OthersKeepTable(s: State, a: Action, i: nat, x: string)
    requires Inv(s) && Enabled(s, a) && i < |s.pcs| && (a.CounterMoves? || a.i != i)
    requires x in s.pcs[i].Shared() || x in s.pcs[i].Excl()
    ensures |Next(s, a).pcs| == |s.pcs| && Next(s, a).pcs[i] == s.pcs[i]
    ensures SameTable(s.l.db, Next(s, a).l.db, x)
  {
    OthersStay(s, a);
    if a.Go? {
      assert x !in s.pcs[a.i].Excl();
      ThreadSameTable(s, a.i, a.ok, a.gap, x);
    }
  }

  lemma DdlOwes(s: State, j: nat, ok: bool, gap: nat, x: string)
    requires j < |s.pcs| && MayWork(s, j) && x !in s.pcs[j].Excl()
    ensures DdlNext(s, j, ok, gap).pcs[j].OwesClear(x) ==> s.pcs[j].OwesClear(x)
  {
  }

  lemma ReadOwes(s: State, j: nat, ok: bool, x: string)
    requires j < |s.pcs| && MayWork(s, j)
    ensures ReadNext(s, j, ok).pcs[j].OwesClear(x) ==> s.pcs[j].OwesClear(x)
  {
  }

  lemma CommitOwes(s: State, j: nat, ok: bool, gap: nat, x: string)
    requires j < |s.pcs| && MayWork(s, j)
    ensures CommitNext(s, j, ok, gap).pcs[j].OwesClear(x) ==> s.pcs[j].OwesClear(x)
  {
  }

  /** An invalidation of x comes to be owed only by a step of a thread that holds x exclusively. */
  lemma StepOwes(s: State, a: Action, x: string)
    requires Enabled(s, a) && (a.Go? ==> x !in s.pcs[a.i].Excl())
    ensures Owed(Next(s, a).pcs, x) ==> Owed(s.pcs, x)
  {
    OthersStay(s, a);
    forall j | 0 <= j < |Next(s, a).pcs| ensures Next(s, a).pcs[j].OwesClear(x) ==> s.pcs[j].OwesClear(x) {
      if a.Go? && j == a.i && !s.pcs[j].Gated() {
        ReadOwes(s, j, a.ok, x);
        CommitOwes(s, j, a.ok, a.gap, x);
        DdlOwes(s, j, a.ok, a.gap, x);
      }
    }
  }

  // ---- One request's read ----

  /** Thread i's statements and connections work throughout. */
  predicate Works(acts: seq<Action>, i: nat) {
    forall k :: 0 <= k < |acts| && acts[k].Go? && acts[k].i == i ==> acts[k].ok
  }

  /** The step is the SELECT of the pointer for thread i's read, and it fails. */
  predicate PointerFault(s: State, a: Action, i: nat) {
    a.Go? && a.i == i && !a.ok && i < |s.pcs| && s.pcs[i].ReadPointer?
  }

  ghost predicate PointerFails(s: State, acts: seq<Action>, i: nat)
    requires Runs(s, acts)
    decreases |acts|
  {
    acts != [] && (PointerFault(s, acts[0], i) || PointerFails(Next(s, acts[0]), acts[1..], i))
  }

  /** The step is the query of thread i's read, and it fails. */
  predicate QueryFault(s: State, a: Action, i: nat) {
    a.Go? && a.i == i && !a.ok && i < |s.pcs| && s.pcs[i].ReadQuery?
  }

  ghost predicate QueryFails(s: State, acts: seq<Action>, i: nat)
    requires Runs(s, acts)
    decreases |acts|
  {
    acts != [] && (QueryFault(s, acts[0], i) || QueryFails(Next(s, acts[0]), acts[1..], i))
  }

  lemma {:induction false} NothingFails(s: State, acts: seq<Action>, i: nat)
    requires Runs(s, acts) && Works(acts, i)
    ensures !PointerFails(s, acts, i) && !QueryFails(s, acts, i)
    decreases |acts|
  {
    if acts != [] {
      WorksOn(acts, i);
      NothingFails(Next(s, acts[0]), acts[1..], i);
    }
  }

  lemma WorksOn(acts: seq<Action>, i: nat)
    requires acts != []
    ensures Works(acts, i) <==> (acts[0].Go? && acts[0].i == i ==> acts[0].ok) && Works(acts[1..], i)
  {
    assert acts == [acts[0]] + acts[1..];
    assert forall k :: 0 < k < |acts| ==> acts[k] == acts[1..][k - 1];
  }

  /** Thread i is between its lock on x and its unlock in every state of the run. */
  ghost predicate Reading(s: State, acts: seq<Action>, i: nat, x: string)
    requires Runs(s, acts)
    decreases |acts|
  {
    && i < |s.pcs| && x in s.pcs[i].Shared() && !s.pcs[i].ReadRelease?
    && (acts == [] || Reading(Next(s, acts[0]), acts[1..], i, x))
  }

  function Asked(whole: Option<Rows>, kind: Kind): Option<Rows> {
    if kind.Full? then whole else PageOf(whole, kind)
  }

  predicate AtPointer(pc: Pc) {
    pc.ReadPointerConn? || pc.ReadPointer?
  }

  /** A read of x that has resolved to goal, wherever it is, and has answered what
      the query answers, once it has, or nothing if its query failed. */
  ghost predicate ReadsAt(l: Ledger, pc: Pc, x: string, goal: nat, kind: Kind, failed: bool) {
    match pc
    case ReadPointerConn(t, k) => !failed && t == x && k == kind && CurrentSnapshot(l.db, x) == goal
    case ReadPointer(t, k) => !failed && t == x && k == kind && CurrentSnapshot(l.db, x) == goal
    case ReadLookup(t, snap) => !failed && t == x && kind.Full? && snap == goal
    case ReadConn(t, snap, k) => !failed && t == x && k == kind && snap == goal
    case ReadQuery(t, snap, k) => !failed && t == x && k == kind && snap == goal
    case ReadPut(t, snap, rows) => !failed && t == x && kind.Full? && snap == goal
    case ReadDone(t, snap, k, result, _) =>
      && t == x && k == kind && snap == goal
      && result == if failed then None else Asked(QueryPartitions(l.db, x, goal), kind)
    case _ => false
  }

  lemma ResolveReads(s: State, i: nat, ok: bool, x: string, want: nat, kind: Kind)
    requires i < |s.pcs| && s.pcs[i] == ReadResolve(x, want, kind) && MayWork(s, i)
    ensures ReadsAt(s.l, ReadNext(s, i, ok).pcs[i], x, ReadSnapshot(s.l.db, x, want, s.counter), kind, false)
    ensures AtPointer(ReadNext(s, i, ok).pcs[i]) ==> want == 0 && s.counter == 0
  {
  }

  /** The goal after a step of the reader: a failed SELECT of the pointer makes it 0. */
  function GoalAfter(pc: Pc, ok: bool, goal: nat): nat {
    if pc.ReadPointer? && !ok then 0 else goal
  }

  lemma OwnStepReads(s: State, i: nat, ok: bool, x: string, goal: nat, kind: Kind, failed: bool)
    requires Inv(s) && i < |s.pcs| && MayWork(s, i) && !s.pcs[i].ReadDone? && !Owed(s.pcs, x)
    requires ReadsAt(s.l, s.pcs[i], x, goal, kind, failed) && !ReadNext(s, i, ok).pcs[i].ReadRelease?
    ensures ReadsAt(s.l, ReadNext(s, i, ok).pcs[i], x, GoalAfter(s.pcs[i], ok, goal), kind,
              failed || (s.pcs[i].ReadQuery? && !ok))
    ensures AtPointer(ReadNext(s, i, ok).pcs[i]) ==> AtPointer(s.pcs[i])
  {
    var pc := s.pcs[i];
    assert LocalOk(s.l, pc);
    if pc.ReadLookup? && Find(s.cache, CacheKey(x, goal)).Some? {
      HitIsCurrent(s, i);
    } else if pc.ReadQuery? && kind.Page? {
      PageOfWhole(s.l.db, x, goal, kind);
    }
  }

  lemma ReadsAtSame(l: Ledger, l': Ledger, pc: Pc, x: string, goal: nat, kind: Kind, failed: bool)
    requires ReadsAt(l, pc, x, goal, kind, failed) && SameTable(l.db, l'.db, x)
    ensures ReadsAt(l', pc, x, goal, kind, failed)
  {
  }

  /** What a step of any thread makes of thread i's goal. */
  function StepGoal(s: State, a: Action, i: nat, goal: nat): nat {
    if PointerFault(s, a, i) then 0 else goal
  }

  /** One step of any thread while thread i reads. */
  lemma StepReads(s: State, a: Action, i: nat, x: string, goal: nat, kind: Kind, failed: bool)
    requires Inv(s) && Enabled(s, a) && i < |s.pcs| && i < |Next(s, a).pcs|
    requires ReadsAt(s.l, s.pcs[i], x, goal, kind, failed) && !Owed(s.pcs, x)
    requires a.Go? && a.i == i ==> !Next(s, a).pcs[i].ReadRelease?
    ensures ReadsAt(Next(s, a).l, Next(s, a).pcs[i], x, StepGoal(s, a, i, goal), kind, failed || QueryFault(s, a, i))
    ensures SameTable(s.l.db, Next(s, a).l.db, x)
    ensures AtPointer(Next(s, a).pcs[i]) ==> AtPointer(s.pcs[i])
  {
    assert x in s.pcs[i].Shared();
    if a.Go? && a.i == i {
      OwnStep(s, i, a.ok, a.gap);
      OwnStepReads(s, i, a.ok, x, goal, kind, failed);
    } else {
      OthersKeepTable(s, a, i, x);
      ReadsAtSame(s.l, Next(s, a).l, s.pcs[i], x, goal, kind, failed);
    }
  }

  /** A reader's lock keeps anyone from coming to owe an invalidation of its table. */
  lemma ReaderKeepsClear(s: State, a: Action, i: nat, x: string)
    requires Exclusive(s.pcs) && Enabled(s, a) && i < |s.pcs| && x in s.pcs[i].Shared() && !Owed(s.pcs, x)
    ensures !Owed(Next(s, a).pcs, x)
  {
    if a.Go? {
      assert x !in s.pcs[a.i].Excl();
    }
    StepOwes(s, a, x);
  }

  /** A reader's own step is a reading step, and an answered one's is its release. */
  lemma OwnStep(s: State, i: nat, ok: bool, gap: nat)
    requires i < |s.pcs| && CanGo(s, i) && s.pcs[i].Shared() != {} && !s.pcs[i].ReadRelease?
    ensures Next(s, Go(i, ok, gap)) == ReadNext(s, i, ok) && ReadNext(s, i, ok).l == s.l
    ensures s.pcs[i].ReadDone? ==> i < |ReadNext(s, i, ok).pcs| && ReadNext(s, i, ok).pcs[i].ReadRelease?
  {
  }

  lemma {:induction false} RunReads(s: State, acts: seq<Action>, i: nat, x: string, goal: nat, kind: Kind, failed: bool)
    requires Inv(s) && Runs(s, acts) && Reading(s, acts, i, x)
    requires ReadsAt(s.l, s.pcs[i], x, goal, kind, failed) && !Owed(s.pcs, x)
    ensures Inv(After(s, acts)) && SameTable(s.l.db, After(s, acts).l.db, x) && i < |After(s, acts).pcs|
    ensures
      var goal' := if PointerFails(s, acts, i) then 0 else goal;
      ReadsAt(After(s, acts).l, After(s, acts).pcs[i], x, goal', kind, failed || QueryFails(s, acts, i))
    ensures PointerFails(s, acts, i) ==> AtPointer(s.pcs[i])
    decreases |acts|
  {
    if acts != [] {
      var a := acts[0];
      assert Reading(Next(s, a), acts[1..], i, x);
      StepInv(s, a);
      StepReads(s, a, i, x, goal, kind, failed);
      ReaderKeepsClear(s, a, i, x);
      RunReads(Next(s, a), acts[1..], i, x, StepGoal(s, a, i, goal), kind, failed || QueryFault(s, a, i));
    }
  }

  /** The run answers one request of thread i: it begins with the step that resolves
      the snapshot and ends when the answer is there. */
  ghost predicate AnswersOne(s: State, acts: seq<Action>, i: nat, x: string, want: nat, kind: Kind) {
    && i < |s.pcs| && s.pcs[i] == ReadResolve(x, want, kind)
    && acts != [] && acts[0].Go? && acts[0].i == i
    && Runs(s, acts) && Reading(s, acts, i, x)
    && i < |After(s, acts).pcs| && After(s, acts).pcs[i].ReadDone?
  }

  /** The snapshot that such a run reads: 0 if the SELECT of the pointer fails. */
  ghost function Goal(s: State, acts: seq<Action>, i: nat, x: string, want: nat): nat
    requires Runs(s, acts)
  {
    if PointerFails(s, acts, i) then 0 else ReadSnapshot(s.l.db, x, want, s.counter)
  }

  /** A read of a table that no drop or rename still owes an invalidation when it
      resolves answers what the query answers at its snapshot: when it resolved, when
      it ends, and whatever runs in between. Exactly a failure of its query leaves it
      without that answer, and only a failed SELECT of the pointer, which only a read
      of the latest with the counter at 0 makes, can move it to snapshot 0. */
  lemma ReadAnswers(s: State, acts: seq<Action>, i: nat, x: string, want: nat, kind: Kind)
    requires Inv(s) && AnswersOne(s, acts, i, x, want, kind) && !Owed(s.pcs, x)
    ensures PointerFails(s, acts, i) ==> want == 0 && s.counter == 0
    ensures Works(acts, i) ==> !PointerFails(s, acts, i) && !QueryFails(s, acts, i)
    ensures
      var goal, s' := Goal(s, acts, i, x, want), After(s, acts);
      && s'.pcs[i].t == x && s'.pcs[i].snap == goal && SameTable(s.l.db, s'.l.db, x)
      && Answer(s.l.db, x, goal, kind) == Answer(s'.l.db, x, goal, kind)
      && s'.pcs[i].result == if QueryFails(s, acts, i) then None else Answer(s.l.db, x, goal, kind)
    ensures
      var goal, tables := Goal(s, acts, i, x, want), s.l.db.tables;
      && (want != 0 ==> goal == want)
      && (want == 0 && s.counter != 0 ==> goal == s.counter)
      && (want == 0 && s.counter == 0 && !PointerFails(s, acts, i) ==>
            goal == if x in tables && !tables[x].isDeleted then tables[x].current else 0)
      && (PointerFails(s, acts, i) ==> goal == 0)
  {
    var s1 := Next(s, acts[0]);
    OwnStep(s, i, acts[0].ok, acts[0].gap);
    ResolveReads(s, i, acts[0].ok, x, want, kind);
    StepInv(s, acts[0]);
    ReaderKeepsClear(s, acts[0], i, x);
    RunReads(s1, acts[1..], i, x, ReadSnapshot(s.l.db, x, want, s.counter), kind, false);
    if Works(acts, i) {
      NothingFails(s, acts, i);
    }
    AskedIsAnswer(s, After(s, acts), x, Goal(s, acts, i, x, want), kind);
  }

  lemma AskedIsAnswer(s: State, s': State, x: string, goal: nat, kind: Kind)
    requires PartitionsOk(s.l.db) && PartitionsOk(s'.l.db) && SameTable(s.l.db, s'.l.db, x)
    ensures Asked(QueryPartitions(s'.l.db, x, goal), kind) == Answer(s.l.db, x, goal, kind)
    ensures Answer(s.l.db, x, goal, kind) == Answer(s'.l.db, x, goal, kind)
  {
    if kind.Page? {
      PageOfWhole(s.l.db, x, goal, kind);
      PageOfWhole(s'.l.db, x, goal, kind);
    }
  }

  /** So a read of the latest snapshot of a live table, unless its query fails, returns the live
      rows if the counter it loaded is 0 or at least the table's pointer, and below the
      pointer the replay of the commits up to the counter; except that with the counter
      at 0 and the SELECT of the pointer failing it returns no rows at all, as an answer. */
  lemma LatestReadAnswers(s: State, acts: seq<Action>, i: nat, x: string)
    requires Inv(s) && AnswersOne(s, acts, i, x, 0, Full) && !Owed(s.pcs, x)
    requires IsLive(s.l.db, x) && s.l.db.tables[x].current <= MAX_BIGINT && s.counter <= MAX_BIGINT
    ensures PointerFails(s, acts, i) ==> s.counter == 0
    ensures After(s, acts).pcs[i].result.Some? <==> !QueryFails(s, acts, i)
    ensures
      var result, t := After(s, acts).pcs[i].result, s.l.db.tables[x];
      result.Some? ==>
        if PointerFails(s, acts, i) then result == Some([])
        else
          && (LatestIsLive(s.l.db, x, s.counter) ==> result == Some(RowsOf(s.l.db, x)))
          && (0 < s.counter < t.current ==> result == Some(Replayed(s.l.log, t.id, s.counter)))
  {
    ReadAnswers(s, acts, i, x, 0, Full);
    LatestReadResolution(s.l, x, s.counter);
    NothingAtZero(s.l, x);
  }

  /** A full read that the database answered is kept: the next lookup finds it. */
  lemma ReadIsCached(s: State, i: nat, gap: nat)
    requires s.capacity >= 1 && i < |s.pcs| && s.pcs[i].ReadPut?
    ensures
      var pc, s' := s.pcs[i], Next(s, Go(i, true, gap));
      && Enabled(s, Go(i, true, gap)) && Find(s'.cache, CacheKey(pc.t, pc.snap)) == Some(pc.rows)
      && i < |s'.pcs| && s'.pcs[i] == ReadDone(pc.t, pc.snap, Full, Some(pc.rows), true)
  {
  }

  /** A hit makes its entry the most recent one. */
  lemma HitIsTouched(s: State, i: nat, gap: nat)
    requires i < |s.pcs| && s.pcs[i].ReadLookup? && Find(s.cache, CacheKey(s.pcs[i].t, s.pcs[i].snap)).Some?
    ensures
      var key, s' := CacheKey(s.pcs[i].t, s.pcs[i].snap), Next(s, Go(i, true, gap));
      && Enabled(s, Go(i, true, gap))
      && s'.cache != [] && s'.cache[0] == Entry(key, Find(s.cache, key).value)
  {
  }

  // ---- The run that answers no rows ----

  lemma LookupSteps(s: State, i: nat, x: string, snap: nat)
    requires i < |s.pcs|
    ensures s.pcs[i] == ReadLookup(x, snap) ==>
      var s', hit := Next(s, Go(i, true, 0)), Find(s.cache, CacheKey(x, snap));
      && Enabled(s, Go(i, true, 0)) && s'.l == s.l && s'.free == s.free
      && s'.pcs == s.pcs[i := if hit.Some? then ReadDone(x, snap, Full, hit, false) else ReadConn(x, snap, Full)]
    ensures s.pcs[i] == ReadConn(x, snap, Full) && s.free > 0 ==>
      Enabled(s, Go(i, true, 0)) && Next(s, Go(i, true, 0)) == At(s.(free := s.free - 1), i, ReadQuery(x, snap, Full))
  {
  }

  lemma QuerySteps(s: State, i: nat, x: string, snap: nat, rows: Rows)
    requires i < |s.pcs|
    ensures s.pcs[i] == ReadQuery(x, snap, Full) && QueryPartitions(s.l.db, x, snap) == Some(rows) ==>
      Enabled(s, Go(i, true, 0)) && Next(s, Go(i, true, 0)) == At(s, i, ReadPut(x, snap, rows))
    ensures s.pcs[i] == ReadPut(x, snap, rows) ==>
      && Enabled(s, Go(i, true, 0)) && Next(s, Go(i, true, 0)).l == s.l
      && Next(s, Go(i, true, 0)).pcs == s.pcs[i := ReadDone(x, snap, Full, Some(rows), true)]
  {
  }

  /** From the connection to the answer. */
  lemma QueryAnswers(s: State, i: nat, x: string, snap: nat, rows: Rows) returns (acts: seq<Action>)
    requires i < |s.pcs| && s.pcs[i] == ReadConn(x, snap, Full) && s.free > 0
    requires QueryPartitions(s.l.db, x, snap) == Some(rows)
    ensures Runs(s, acts) && After(s, acts).l == s.l
    ensures After(s, acts).pcs == s.pcs[i := ReadDone(x, snap, Full, Some(rows), true)]
  {
    var go, taken := Go(i, true, 0), s.(free := s.free - 1);
    var s1, s2 := At(taken, i, ReadQuery(x, snap, Full)), At(taken, i, ReadPut(x, snap, rows));
    LookupSteps(s, i, x, snap);
    QuerySteps(s1, i, x, snap, rows);
    assert At(s1, i, ReadPut(x, snap, rows)) == s2;
    QuerySteps(s2, i, x, snap, rows);
    RunFurther(s2, go, []);
    RunFurther(s1, go, [go] + []);
    RunFurther(s, go, [go] + ([go] + []));
    acts := [go] + ([go] + ([go] + []));
  }

  /** From the cache to the answer, by a hit or by a query. */
  lemma LookupAnswers(s: State, i: nat, x: string, snap: nat, rows: Rows) returns (acts: seq<Action>)
    requires i < |s.pcs| && s.pcs[i] == ReadLookup(x, snap) && s.free > 0
    requires QueryPartitions(s.l.db, x, snap) == Some(rows)
    requires var hit := Find(s.cache, CacheKey(x, snap)); hit.Some? ==> hit == Some(rows)
    ensures Runs(s, acts) && After(s, acts).l == s.l
    ensures exists conn :: After(s, acts).pcs == s.pcs[i := ReadDone(x, snap, Full, Some(rows), conn)]
  {
    var go := Go(i, true, 0);
    var s1 := Next(s, go);
    LookupSteps(s, i, x, snap);
    if Find(s.cache, CacheKey(x, snap)).Some? {
      RunFurther(s, go, []);
      acts := [go] + [];
    } else {
      var rest := QueryAnswers(s1, i, x, snap, rows);
      RunFurther(s, go, rest);
      acts := [go] + rest;
    }
  }

  lemma PointerSteps(s: State, i: nat, x: string)
    requires i < |s.pcs|
    ensures s.pcs[i] == ReadLock(Waiting, x, 0, Full) && FreeForShared(s, x) ==>
      Enabled(s, Go(i, true, 0)) && Next(s, Go(i, true, 0)) == At(s, i, ReadResolve(x, 0, Full))
    ensures s.pcs[i] == ReadResolve(x, 0, Full) && s.counter == 0 ==>
      Enabled(s, Go(i, true, 0)) && Next(s, Go(i, true, 0)) == At(s, i, ReadPointerConn(x, Full))
    ensures s.pcs[i] == ReadPointerConn(x, Full) && s.free > 0 ==>
      Enabled(s, Go(i, true, 0)) && Next(s, Go(i, true, 0)) == At(s.(free := s.free - 1), i, ReadPointer(x, Full))
    ensures s.pcs[i] == ReadPointer(x, Full) ==>
      Enabled(s, Go(i, false, 0)) && Next(s, Go(i, false, 0)) == At(s.(free := s.free + 1), i, ReadLookup(x, 0))
  {
  }

  /** From waiting for the lock, over the SELECT that fails, to the cache. */
  lemma PointerLost(s: State, i: nat, x: string) returns (acts: seq<Action>)
    requires i < |s.pcs| && s.pcs[i] == ReadLock(Waiting, x, 0, Full) && FreeForShared(s, x)
    requires s.counter == 0 && s.free > 0
    ensures Runs(s, acts) && After(s, acts) == At(s, i, ReadLookup(x, 0))
  {
    var go, taken := Go(i, true, 0), s.(free := s.free - 1);
    var s1, s2 := At(s, i, ReadResolve(x, 0, Full)), At(s, i, ReadPointerConn(x, Full));
    var s3 := At(taken, i, ReadPointer(x, Full));
    PointerSteps(s, i, x);
    PointerSteps(s1, i, x);
    PointerSteps(s2, i, x);
    PointerSteps(s3, i, x);
    assert At(s1, i, ReadPointerConn(x, Full)) == s2 && At(s2.(free := s2.free - 1), i, ReadPointer(x, Full)) == s3;
    assert At(s3.(free := s3.free + 1), i, ReadLookup(x, 0)) == At(s, i, ReadLookup(x, 0));
    RunFurther(s3, Go(i, false, 0), []);
    RunFurther(s2, go, [Go(i, false, 0)] + []);
    RunFurther(s1, go, [go] + ([Go(i, false, 0)] + []));
    RunFurther(s, go, [go] + ([go] + ([Go(i, false, 0)] + [])));
    acts := [go] + ([go] + ([go] + ([Go(i, false, 0)] + [])));
  }

  /** One failed SELECT is enough: with the counter at 0, a read of the latest snapshot
      of a live table, however many rows it has, can be answered with no rows. The run
      can start in any state with an idle thread, a connection to take, nobody writing
      the table or in the registry, and no invalidation of the table owing. */
  lemma FailedReadIsEmpty(s: State, i: nat, x: string) returns (acts: seq<Action>)
    requires Inv(s) && i < |s.pcs| && s.pcs[i].Idle? && s.registry.None? && FreeForShared(s, x) && s.free > 0
    requires s.counter == 0 && IsLive(s.l.db, x) && !Owed(s.pcs, x)
    ensures Runs(s, acts) && After(s, acts).l == s.l
    ensures exists conn :: After(s, acts).pcs == s.pcs[i := ReadDone(x, 0, Full, Some([]), conn)]
  {
    var first := AskedInVain(s, i, x);
    var s1 := After(s, first);
    RunInv(s, first);
    NothingAtZero(s.l, x);
    NobodyOwes(s, s1, i, x);
    if Find(s1.cache, CacheKey(x, 0)).Some? {
      HitIsCurrent(s1, i);
    }
    var rest := LookupAnswers(s1, i, x, 0, []);
    RunOn(s, first, rest);
    acts := first + rest;
  }

  lemma AskedInVain(s: State, i: nat, x: string) returns (acts: seq<Action>)
    requires i < |s.pcs| && s.pcs[i].Idle? && s.registry.None? && FreeForShared(s, x) && s.free > 0 && s.counter == 0
    ensures Runs(s, acts) && After(s, acts).l == s.l && After(s, acts).free == s.free
    ensures After(s, acts).pcs == s.pcs[i := ReadLookup(x, 0)]
  {
    var first := RequestReached(s, i, ReadLock(Asking, x, 0, Full));
    var s1 := After(s, first);
    assert FreeForShared(s1, x);
    var second := PointerLost(s1, i, x);
    RunOn(s, first, second);
    acts := first + second;
  }

  lemma NobodyOwes(s: State, s': State, i: nat, x: string)
    requires i < |s.pcs| && s'.pcs == s.pcs[i := ReadLookup(x, 0)] && !Owed(s.pcs, x)
    ensures !Owed(s'.pcs, x)
  {
    forall j | 0 <= j < |s'.pcs| ensures !s'.pcs[j].OwesClear(x) {
      assert !s.pcs[j].OwesClear(x);
    }
  }
}
