/** The server as a state machine: any number of handler threads, each a
    sequence of small steps, over one ledger, one cache, one counter and one
    connection pool. Guards live on a thread's stack, so the table locks a
    thread holds are read off its program counter. */
module Serving {
  import opened Options
  import opened CacheKeys
  import opened Recency
  import opened Store
  import opened History
  import opened Catalog

  datatype Kind = Full | Page(limit: int, last: int)

  type Rows = seq<PartitionRow>

  /** How far a thread is with a table's mutex: it asks for the registry, owns it
      to look the mutex up, or has given it back and waits for the mutex itself. */
  datatype Gate = Asking | Owning | Waiting

  /** How a catalog call ended; moved says that its name no longer means the table it did. */
  datatype End = Thrown | Ended(ok: bool, moved: bool)

  /** Where a handler thread is, with its locals; trusted says that a commit's
      SELECT of the current snapshot worked, base is the last partition id when it
      opened, owns that a release owns the registry. */
  datatype Pc =
    | Idle
    // get_partitions and get_partitions_paged
    | ReadLock(gate: Gate, t: string, want: nat, kind: Kind)
    | ReadResolve(t: string, want: nat, kind: Kind)
    | ReadPointerConn(t: string, kind: Kind)
    | ReadPointer(t: string, kind: Kind)
    | ReadLookup(t: string, snap: nat)
    | ReadConn(t: string, snap: nat, kind: Kind)
    | ReadQuery(t: string, snap: nat, kind: Kind)
    | ReadPut(t: string, snap: nat, rows: Rows)
    | ReadDone(t: string, snap: nat, kind: Kind, result: Option<Rows>, holdsConn: bool)
    | ReadRelease(owns: bool, t: string)
    // commit_snapshot
    | CommitLock(gate: Gate, t: string, req: Request)
    | CommitConn(t: string, req: Request)
    | CommitCheck(t: string, req: Request)
    | CommitOpen(t: string, req: Request, trusted: bool)
    | CommitWrite(t: string, req: Request, trusted: bool, tid: nat, n: nat, base: nat, added: Rows, marked: nat)
    | CommitClear(t: string, n: nat)
    | CommitDone(t: string, committed: Option<nat>)
    | CommitRelease(owns: bool, t: string)
    // create_table, alter_table_schema, rename_table, drop_table and the handlers around them
    | DdlLock(gate: Gate, op: Ddl)
    | DdlLockSecond(gate: Gate, op: Ddl)
    | DdlConn(op: Ddl)
    | DdlRun(op: Ddl)
    | DdlDone(op: Ddl, end: End)
    | DdlReleaseSecond(owns: bool, op: Ddl, end: End)
    | DdlRelease(owns: bool, op: Ddl, end: End)
    | DdlClear(op: Ddl, end: End)
  {
    predicate IsRequest() {
      (ReadLock? || CommitLock? || DdlLock?) && gate.Asking?
    }

    // ---- Two-level locking ----

    predicate Locks() {
      ReadLock? || CommitLock? || DdlLock? || DdlLockSecond?
    }

    predicate Unlocks() {
      ReadRelease? || CommitRelease? || DdlReleaseSecond? || DdlRelease?
    }

    predicate AsksRegistry() {
      (Locks() && gate.Asking?) || (Unlocks() && !owns)
    }

    predicate OwnsRegistry() {
      (Locks() && gate.Owning?) || (Unlocks() && owns)
    }

    /** At a step around the registry mutex. */
    predicate Gated() {
      AsksRegistry() || OwnsRegistry()
    }

    predicate WaitsForLock() {
      Locks() && gate.Waiting?
    }

    /** The table whose mutex a lock or a release looks up. */
    function Target(): string
      requires Locks() || Unlocks()
    {
      if DdlLock? || DdlRelease? then op.name
      else if DdlLockSecond? || DdlReleaseSecond? then op.Second()
      else t
    }

    /** The tables whose exclusive guard is alive. */
    function Excl(): set<string> {
      if CommitConn? || CommitCheck? || CommitOpen? || CommitWrite? || CommitClear? || CommitDone? || CommitRelease?
      then {t}
      else if DdlLockSecond? || DdlRelease? then {op.name}
      else if DdlConn? || DdlRun? || DdlDone? || DdlReleaseSecond? then op.Names()
      else {}
    }

    /** The table whose shared guard is alive. */
    function Shared(): set<string> {
      if ReadResolve? || ReadPointerConn? || ReadPointer? || ReadLookup? || ReadConn? || ReadQuery? || ReadPut?
         || ReadDone? || ReadRelease?
      then {t} else {}
    }

    // ---- Connections ----

    predicate HasConn() {
      || ReadPointer? || ReadQuery? || ReadPut? || (ReadDone? && holdsConn)
      || CommitCheck? || CommitOpen? || CommitWrite? || CommitClear? || CommitDone?
      || DdlRun? || DdlDone?
    }

    predicate WaitsForConn() {
      ReadPointerConn? || ReadConn? || CommitConn? || DdlConn?
    }

    // ---- Invalidations ----

    /** A drop or rename has taken x away from its readers and not yet invalidated it. */
    predicate OwesClear(x: string) {
      (DdlDone? || DdlReleaseSecond? || DdlRelease? || DdlClear?) && Moves(op, end) && op.name == x
    }

    /** An invalidation of x that matters is still to come from this thread. */
    predicate Clears(x: string) {
      (CommitClear? && t == x) || OwesClear(x)
    }
  }

  predicate Moves(op: Ddl, end: End) {
    (op.Rename? || op.Drop?) && end.Ended? && end.ok && end.moved
  }

  /** AlterTable always invalidates afterwards, DropTable on success, CreateTable
      never; and an exception skips the invalidation. */
  predicate Invalidates(op: Ddl, end: End) {
    end.Ended? && (op.Alter? || op.Rename? || (op.Drop? && end.ok))
  }

  /** registry is the owner of the registry mutex, known the names that have a mutex. */
  datatype State = State(
    l: Ledger, cache: seq<Entry<string, Rows>>, capacity: nat, counter: nat, free: nat,
    registry: Option<nat>, known: set<string>, pcs: seq<Pc>)

  datatype Action =
    | Arrive(i: nat, request: Pc)
    /** Thread i takes its next step; ok says whether the statement or connection it needs
        works, gap how many ids other users of the sequence drew first. */
    | Go(i: nat, ok: bool, gap: nat)
    /** A transaction of the MVCC manager commits. */
    | CounterMoves

  // ---- Enabledness ----

  predicate FreeForShared(s: State, x: string) {
    forall j :: 0 <= j < |s.pcs| ==> x !in s.pcs[j].Excl()
  }

  predicate FreeForExclusive(s: State, x: string) {
    forall j :: 0 <= j < |s.pcs| ==> x !in s.pcs[j].Excl() && x !in s.pcs[j].Shared()
  }

  predicate CanGo(s: State, i: nat)
    requires i < |s.pcs|
  {
    var pc := s.pcs[i];
    && !pc.Idle?
    && (pc.AsksRegistry() ==> s.registry.None?)
    && (pc.WaitsForLock() ==> if pc.ReadLock? then FreeForShared(s, pc.Target()) else FreeForExclusive(s, pc.Target()))
    && (pc.WaitsForConn() ==> s.free > 0)
  }

  /** Thread i can go, and not just around the registry. */
  predicate MayWork(s: State, i: nat)
    requires i < |s.pcs|
  {
    CanGo(s, i) && !s.pcs[i].Gated()
  }

  predicate Enabled(s: State, a: Action) {
    match a
    case Arrive(i, request) => i < |s.pcs| && s.pcs[i].Idle? && request.IsRequest()
    case Go(i, _, _) => i < |s.pcs| && CanGo(s, i)
    case CounterMoves => true
  }

  // ---- Steps ----

  function At(s: State, i: nat, pc: Pc): State
    requires i < |s.pcs|
  {
    s.(pcs := s.pcs[i := pc])
  }

  function TablePred(x: string): string -> bool {
    k => TablePrefix(x) <= k
  }

  function Cleared(s: State, x: string): State {
    s.(cache := Step(s.cache, s.capacity, InvalidateIf(TablePred(x))))
  }

  /** After the snapshot is resolved: paged reads bypass the cache. */
  function Resolved(x: string, snap: nat, kind: Kind): Pc {
    if kind.Full? then ReadLookup(x, snap) else ReadConn(x, snap, kind)
  }

  function Answer(db: Store, x: string, snap: nat, kind: Kind): Option<Rows> {
    match kind
    case Full => QueryPartitions(db, x, snap)
    case Page(limit, last) => QueryPage(db, x, snap, limit, last)
  }

  /** What follows the work of a catalog call: its guards die in reverse order. */
  function AfterWork(op: Ddl, end: End): Pc {
    if op.Rename? then DdlReleaseSecond(false, op, end) else DdlRelease(false, op, end)
  }

  /** Where a thread goes on when it has unlocked a mutex. */
  function Unlocked(pc: Pc): Pc {
    match pc
    case DdlReleaseSecond(_, op, end) => DdlRelease(false, op, end)
    case DdlRelease(_, op, end) => if Invalidates(op, end) then DdlClear(op, end) else Idle
    case _ => Idle
  }

  /** A lock that has passed its gate and waits for the mutex itself. */
  function AtMutex(pc: Pc): Pc
    requires pc.Locks()
  {
    pc.(gate := Waiting)
  }

  /** The steps around the registry mutex: take it; under it find or create a mutex
      to lock, or find and unlock one; give it back. A name without a mutex cannot be
      unlocked: the exception leaves a destructor. */
  function GateNext(s: State, i: nat): State
    requires i < |s.pcs| && CanGo(s, i) && s.pcs[i].Gated()
  {
    var pc := s.pcs[i];
    if pc.AsksRegistry() then
      At(s.(registry := Some(i)), i, if pc.Locks() then pc.(gate := Owning) else pc.(owns := true))
    else if pc.Locks() then At(s.(registry := None, known := s.known + {pc.Target()}), i, AtMutex(pc))
    else if pc.Target() in s.known then At(s.(registry := None), i, Unlocked(pc))
    else s
  }

  function ReadNext(s: State, i: nat, ok: bool): State
    requires i < |s.pcs| && MayWork(s, i)
  {
    match s.pcs[i]
    case ReadLock(_, x, want, kind) => At(s, i, ReadResolve(x, want, kind))
    case ReadResolve(x, want, kind) =>
      var snap := if want == 0 then s.counter else want;
      At(s, i, if snap == 0 then ReadPointerConn(x, kind) else Resolved(x, snap, kind))
    case ReadPointerConn(x, kind) =>
      At(s.(free := s.free - 1), i, if ok then ReadPointer(x, kind) else ReadRelease(false, x))
    case ReadPointer(x, kind) =>
      At(s.(free := s.free + 1), i, Resolved(x, if ok then CurrentSnapshot(s.l.db, x) else 0, kind))
    case ReadLookup(x, snap) =>
      var hit := Find(s.cache, CacheKey(x, snap));
      At(s.(cache := Step(s.cache, s.capacity, Get(CacheKey(x, snap)))), i,
         if hit.Some? then ReadDone(x, snap, Full, hit, false) else ReadConn(x, snap, Full))
    case ReadConn(x, snap, kind) =>
      At(s.(free := s.free - 1), i, if ok then ReadQuery(x, snap, kind) else ReadRelease(false, x))
    case ReadQuery(x, snap, kind) =>
      var r := if ok then Answer(s.l.db, x, snap, kind) else None;
      At(s, i, if kind.Full? && r.Some? then ReadPut(x, snap, r.value) else ReadDone(x, snap, kind, r, true))
    case ReadPut(x, snap, rows) =>
      At(s.(cache := Step(s.cache, s.capacity, Put(CacheKey(x, snap), rows))), i,
        ReadDone(x, snap, Full, Some(rows), true))
    case ReadDone(x, _, _, _, conn) => At(s.(free := if conn then s.free + 1 else s.free), i, ReadRelease(false, x))
    case _ => s
  }

  function CommitNext(s: State, i: nat, ok: bool, gap: nat): State
    requires i < |s.pcs| && MayWork(s, i)
  {
    match s.pcs[i]
    case CommitLock(_, x, req) => At(s, i, CommitConn(x, req))
    case CommitConn(x, req) =>
      At(s.(free := s.free - 1), i, if ok then CommitCheck(x, req) else CommitRelease(false, x))
    case CommitCheck(x, req) =>
      // A failed SELECT of the pointer reads as 0, like a table without snapshots.
      var pointer := if ok then CurrentSnapshot(s.l.db, x) else 0;
      At(s, i, if req.parent == pointer then CommitOpen(x, req, ok) else CommitDone(x, None))
    case CommitOpen(x, req, trusted) =>
      if ok && IsLive(s.l.db, x) then
        var l := Drawn(s.l, 0, gap + 1, 0);
        At(s.(l := l), i, CommitWrite(x, req, trusted, l.db.tables[x].id, l.db.lastSnapshot, l.db.lastPartition, [], 0))
      else At(s.(l := Drawn(s.l, 0, gap, 0)), i, CommitDone(x, None))
    case CommitWrite(x, req, trusted, tid, n, base, added, marked) =>
      if !ok then At(s.(l := Drawn(s.l, 0, 0, gap)), i, CommitDone(x, None))
      else if |added| < |req.added| then
        var l := Drawn(s.l, 0, 0, gap + 1);
        var row := NewRow(l.db.lastPartition, tid, n, req.added[|added|]);
        At(s.(l := l), i, CommitWrite(x, req, trusted, tid, n, base, added + [row], marked))
      else if marked < |req.deleted| then At(s, i, CommitWrite(x, req, trusted, tid, n, base, added, marked + 1))
      else if x in s.l.db.tables then At(s.(l := Published(s.l, x, n, req, added)), i, CommitClear(x, n))
      else s
    case CommitClear(x, n) => At(Cleared(s, x), i, CommitDone(x, Some(n)))
    case CommitDone(x, _) => At(s.(free := s.free + 1), i, CommitRelease(false, x))
    case _ => s
  }

  function DdlNext(s: State, i: nat, ok: bool, gap: nat): State
    requires i < |s.pcs| && MayWork(s, i)
  {
    match s.pcs[i]
    case DdlLock(_, op) => At(s, i, if op.Rename? then DdlLockSecond(Asking, op) else DdlConn(op))
    case DdlLockSecond(_, op) => At(s, i, DdlConn(op))
    case DdlConn(op) => At(s.(free := s.free - 1), i, if ok then DdlRun(op) else AfterWork(op, Thrown))
    case DdlRun(op) =>
      var l := Drawn(s.l, gap, 0, 0);
      var r := if ok then Effect(l, op) else None;
      At(s.(l := if r.Some? then r.value else l), i, DdlDone(op, Ended(r.Some?, r.Some? && IsLive(l.db, op.name))))
    case DdlDone(op, end) => At(s.(free := s.free + 1), i, AfterWork(op, end))
    case DdlClear(op, end) => At(Cleared(s, op.name), i, Idle)
    case _ => s
  }

  function Next(s: State, a: Action): State
    requires Enabled(s, a)
  {
    match a
    case Arrive(i, request) => At(s, i, request)
    case Go(i, ok, gap) => ThreadNext(s, i, ok, gap)
    case CounterMoves => s.(counter := s.counter + 1)
  }

  /** The step of whichever handler thread i runs. */
  function ThreadNext(s: State, i: nat, ok: bool, gap: nat): State
    requires i < |s.pcs| && CanGo(s, i)
  {
    var pc := s.pcs[i];
    if pc.Gated() then GateNext(s, i)
    else if pc.ReadLock? || pc.Shared() != {} then ReadNext(s, i, ok)
    else if pc.DdlLock? || pc.DdlLockSecond? || pc.DdlConn? || pc.DdlRun? || pc.DdlDone? || pc.DdlClear?
      then DdlNext(s, i, ok, gap)
    else CommitNext(s, i, ok, gap)
  }

  function Start(threads: nat, capacity: nat, connections: nat): State {
    State(START, [], capacity, 0, connections, None, {}, seq(threads, i => Idle))
  }

  /** A run of actions, each enabled where it is taken. */
  ghost predicate Runs(s: State, acts: seq<Action>)
    decreases |acts|
  {
    acts == [] || (Enabled(s, acts[0]) && Runs(Next(s, acts[0]), acts[1..]))
  }

  ghost function After(s: State, acts: seq<Action>): State
    requires Runs(s, acts)
    decreases |acts|
  {
    if acts == [] then s else After(Next(s, acts[0]), acts[1..])
  }
}
