/** Whole commits: from the lock of a thread that commits to its reply, with any
    steps of other threads in between. */
module CommitRuns {
  import opened Options
  import opened Store
  import opened History
  import opened Serving
  import opened Invariant
  import opened ReadRuns
  import opened Requests

  /** Snapshot n of x is the request on top of what x was at the start, and below n nothing has changed. */
  ghost predicate Done(db: Store, db': Store, x: string, n: nat, req: Request) {
    && TableId(db', x) == TableId(db, x) && TableId(db, x).Some?
    && CurrentSnapshot(db, x) < n == CurrentSnapshot(db', x)
    && (n <= MAX_BIGINT ==> ReadsAsRequested(db, db', x, n, req))
    && forall snap: nat :: snap < n ==> QueryPartitions(db', x, snap) == QueryPartitions(db, x, snap)
  }

  /** Where a commit of req on x, from the store db on, is, and what it has done so far. */
  ghost predicate CommitsAt(db: Store, db': Store, pc: Pc, x: string, req: Request) {
    match pc
    case CommitConn(t, r) => t == x && r == req && SameTable(db, db', x)
    case CommitCheck(t, r) => t == x && r == req && SameTable(db, db', x)
    case CommitOpen(t, r, _) => t == x && r == req && SameTable(db, db', x)
    case CommitWrite(t, r, _, _, _, _, _, _) => t == x && r == req && SameTable(db, db', x)
    case CommitClear(t, n) => t == x && Done(db, db', x, n, req)
    case CommitDone(t, committed) =>
      && t == x
      && if committed.None? then SameTable(db, db', x) else Done(db, db', x, committed.value, req)
    case _ => false
  }

  lemma CommitsAtSame(db: Store, now: Store, db': Store, pc: Pc, x: string, req: Request)
    requires CommitsAt(db, now, pc, x, req) && SameTable(now, db', x)
    ensures CommitsAt(db, db', pc, x, req)
  {
  }

  /** The step that publishes. */
  lemma PublishDone(s: State, i: nat, db: Store, x: string, req: Request)
    requires Ok(s.l) && i < |s.pcs| && Publishes(s, i, true) && LocalOk(s.l, s.pcs[i]) && MayWork(s, i)
    requires CommitsAt(db, s.l.db, s.pcs[i], x, req)
    ensures Done(db, Published(s.l, x, s.pcs[i].n, req, s.pcs[i].added).db, x, s.pcs[i].n, req)
  {
    var w := s.pcs[i];
    var db' := Published(s.l, x, w.n, req, w.added).db;
    if w.n <= MAX_BIGINT {
      var picks := CommitShowsRequest(s.l, x, w.tid, w.n, w.base, req, w.added, w.n);
      assert ReadsAsRequested(s.l.db, db', x, w.n, req);
    }
    forall snap: nat | snap < w.n ensures QueryPartitions(db', x, snap) == QueryPartitions(db, x, snap) {
      PublishedQuery(s.l, x, w.tid, w.n, w.base, req, w.added, x, snap);
    }
  }

  /** Where a step of the commit that does not publish leads. */
  lemma QuietCommit(s: State, i: nat, ok: bool, gap: nat)
    requires i < |s.pcs| && MayWork(s, i) && !Publishes(s, i, ok) && LocalOk(s.l, s.pcs[i])
    requires s.pcs[i].CommitConn? || s.pcs[i].CommitCheck? || s.pcs[i].CommitOpen? || s.pcs[i].CommitWrite?
             || s.pcs[i].CommitClear?
    ensures
      var pc, pc' := s.pcs[i], CommitNext(s, i, ok, gap).pcs[i];
      || pc'.CommitRelease?
      || (pc.CommitClear? && pc' == CommitDone(pc.t, Some(pc.n)))
      || (!pc.CommitClear? && pc' == CommitDone(pc.t, None))
      || (!pc.CommitClear? && (pc'.CommitCheck? || pc'.CommitOpen? || pc'.CommitWrite?)
          && pc'.t == pc.t && pc'.req == pc.req)
  {
  }

  /** A commit's own step, while it has its lock and no mutex to ask for. */
  lemma OwnCommitNext(s: State, i: nat, ok: bool, gap: nat)
    requires i < |s.pcs| && CanGo(s, i)
    requires s.pcs[i].CommitConn? || s.pcs[i].CommitCheck? || s.pcs[i].CommitOpen? || s.pcs[i].CommitWrite?
             || s.pcs[i].CommitClear? || s.pcs[i].CommitDone?
    ensures MayWork(s, i) && Next(s, Go(i, ok, gap)) == CommitNext(s, i, ok, gap)
    ensures |CommitNext(s, i, ok, gap).pcs| == |s.pcs|
    ensures s.pcs[i].CommitDone? ==> CommitNext(s, i, ok, gap).pcs[i].CommitRelease?
  {
  }

  lemma PublishedNext(s: State, i: nat, ok: bool, gap: nat)
    requires i < |s.pcs| && MayWork(s, i) && Publishes(s, i, ok) && s.pcs[i].t in s.l.db.tables
    ensures CommitNext(s, i, ok, gap).l == Published(s.l, s.pcs[i].t, s.pcs[i].n, s.pcs[i].req, s.pcs[i].added)
    ensures CommitNext(s, i, ok, gap).pcs[i] == CommitClear(s.pcs[i].t, s.pcs[i].n)
  {
  }

  lemma OwnCommitStep(s: State, i: nat, ok: bool, gap: nat, db: Store, x: string, req: Request)
    requires Ok(s.l) && i < |s.pcs| && LocalOk(s.l, s.pcs[i]) && MayWork(s, i) && !s.pcs[i].CommitDone?
    requires CommitsAt(db, s.l.db, s.pcs[i], x, req) && !CommitNext(s, i, ok, gap).pcs[i].CommitRelease?
    ensures CommitsAt(db, CommitNext(s, i, ok, gap).l.db, CommitNext(s, i, ok, gap).pcs[i], x, req)
  {
    if Publishes(s, i, ok) {
      PublishDone(s, i, db, x, req);
      PublishedNext(s, i, ok, gap);
    } else {
      var d := Draws(s, i, ok, gap);
      CommitDraws(s, i, ok, gap);
      DrawnSameTable(s.l, 0, d.0, d.1, x);
      QuietCommit(s, i, ok, gap);
      CommitsAtSame(db, s.l.db, CommitNext(s, i, ok, gap).l.db, CommitNext(s, i, ok, gap).pcs[i], x, req);
    }
  }

  /** Thread i has x locked for its commit and has not begun to unlock it, in every state of the run. */
  ghost predicate Committing(s: State, acts: seq<Action>, i: nat, x: string)
    requires Runs(s, acts)
    decreases |acts|
  {
    && i < |s.pcs| && x in s.pcs[i].Excl() && !s.pcs[i].CommitRelease?
    && (acts == [] || Committing(Next(s, acts[0]), acts[1..], i, x))
  }

  /** One step of any thread while thread i commits. */
  lemma StepCommits(s: State, a: Action, i: nat, db: Store, x: string, req: Request)
    requires Inv(s) && Enabled(s, a) && i < |s.pcs| && i < |Next(s, a).pcs| && x in s.pcs[i].Excl()
    requires CommitsAt(db, s.l.db, s.pcs[i], x, req) && !Next(s, a).pcs[i].CommitRelease?
    ensures CommitsAt(db, Next(s, a).l.db, Next(s, a).pcs[i], x, req)
  {
    if a.Go? && a.i == i {
      OwnCommitNext(s, i, a.ok, a.gap);
      assert LocalOk(s.l, s.pcs[i]);
      OwnCommitStep(s, i, a.ok, a.gap, db, x, req);
    } else {
      assert a.CounterMoves? || a.i != i;
      OthersKeepTable(s, a, i, x);
      CommitsAtSame(db, s.l.db, Next(s, a).l.db, s.pcs[i], x, req);
    }
  }

  lemma {:induction false} RunCommits(s: State, acts: seq<Action>, i: nat, db: Store, x: string, req: Request)
    requires Inv(s) && Runs(s, acts) && Committing(s, acts, i, x)
    requires CommitsAt(db, s.l.db, s.pcs[i], x, req)
    ensures i < |After(s, acts).pcs| && CommitsAt(db, After(s, acts).l.db, After(s, acts).pcs[i], x, req)
    decreases |acts|
  {
    if acts != [] {
      assert Committing(Next(s, acts[0]), acts[1..], i, x);
      StepInv(s, acts[0]);
      StepCommits(s, acts[0], i, db, x, req);
      RunCommits(Next(s, acts[0]), acts[1..], i, db, x, req);
    }
  }

  /** The run takes one commit of thread i from its lock to its reply. */
  ghost predicate CommitsOne(s: State, acts: seq<Action>, i: nat, x: string, req: Request) {
    && i < |s.pcs| && s.pcs[i] == CommitConn(x, req)
    && Runs(s, acts) && Committing(s, acts, i, x)
    && i < |After(s, acts).pcs| && After(s, acts).pcs[i].CommitDone?
  }

  /** A commit's reply is true, whatever runs in between and whatever fails: if it names
      a snapshot, the table's pointer is that snapshot, which shows exactly the request on
      top of what the table showed when the commit got its lock, and nothing older reads
      differently; if it reports failure, the table is and reads as it did. */
  lemma RepliesAreTrue(s: State, acts: seq<Action>, i: nat, x: string, req: Request)
    requires Inv(s) && CommitsOne(s, acts, i, x, req)
    ensures
      var s' := After(s, acts);
      match s'.pcs[i].committed
      case Some(n) => Done(s.l.db, s'.l.db, x, n, req)
      case None => SameTable(s.l.db, s'.l.db, x)
  {
    RunCommits(s, acts, i, s.l.db, x, req);
  }
}
