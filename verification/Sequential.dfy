/** The two readings of the handlers agree: a commit or catalog thread of the
    state machine that runs uninterrupted ends as the sequential code does. */
module Sequential {
  import opened Options
  import opened Store
  import opened History
  import opened Serving
  import opened Invariant
  import opened PartitionRegistry
  import CatalogManager

  /** Only thread i steps. */
  predicate Alone(acts: seq<Action>, i: nat) {
    forall k :: 0 <= k < |acts| ==> acts[k].Go? && acts[k].i == i
  }

  /** The step is a commit's statement that fails. */
  predicate Fault(s: State, a: Action) {
    a.Go? && !a.ok && a.i < |s.pcs| && (s.pcs[a.i].CommitCheck? || s.pcs[a.i].CommitOpen? || s.pcs[a.i].CommitWrite?)
  }

  ghost function Faults(s: State, acts: seq<Action>): nat
    requires Runs(s, acts)
    decreases |acts|
  {
    if acts == [] then 0 else (if Fault(s, acts[0]) then 1 else 0) + Faults(Next(s, acts[0]), acts[1..])
  }

  function ResultOf(committed: Option<nat>): CommitResult {
    if committed.Some? then CommitResult(true, committed.value) else FAILED
  }

  ghost predicate Ends(l: Ledger, l': Ledger, faults: nat, x: string, req: Request, committed: Option<nat>) {
    exists added :: Outcome(l, l', faults, x, req, ResultOf(committed), added)
  }

  /** What the check has established. */
  predicate Checked(l: Ledger, x: string, req: Request, trusted: bool, faults: nat) {
    if trusted then faults == 0 && req.parent == CurrentSnapshot(l.db, x) else faults == 1 && req.parent == 0
  }

  /** A commit that started from ledger l and has run alone up to pc. */
  ghost predicate SoFar(l: Ledger, l': Ledger, pc: Pc, x: string, req: Request, faults: nat) {
    match pc
    case CommitLock(_, t, r) => t == x && r == req && l' == l && faults == 0
    case CommitConn(t, r) => t == x && r == req && l' == l && faults == 0
    case CommitCheck(t, r) => t == x && r == req && l' == l && faults == 0
    case CommitOpen(t, r, trusted) => t == x && r == req && l' == l && Checked(l, x, req, trusted, faults)
    case CommitWrite(t, r, trusted, tid, n, base, _, _) =>
      && t == x && r == req && Checked(l, x, req, trusted, faults)
      && IsLive(l.db, x) && tid == l.db.tables[x].id && base == l.db.lastPartition && l.db.lastSnapshot < n
      && MovedOn(l.db, l'.db) && l' == DrawnUpTo(l, l'.db)
    case CommitClear(t, n) => t == x && Ends(l, l', faults, x, req, Some(n))
    case CommitDone(t, committed) => t == x && Ends(l, l', faults, x, req, committed)
    case CommitRelease(_, _) => true
    case Idle => true
    case _ => false
  }

  lemma FailsAt(l: Ledger, l': Ledger, faults: nat, x: string, req: Request)
    requires PgClient.SameRows(l.db, l'.db) && l'.log == l.log && l'.roots == l.roots
    requires faults == 0 ==> !(IsLive(l.db, x) && req.parent == CurrentSnapshot(l.db, x))
    ensures Ends(l, l', faults, x, req, None)
  {
    assert Outcome(l, l', faults, x, req, ResultOf(None), []);
  }

  lemma CheckSoFar(s: State, i: nat, ok: bool, l: Ledger, x: string, req: Request, faults: nat)
    requires i < |s.pcs| && s.pcs[i].CommitCheck? && SoFar(l, s.l, s.pcs[i], x, req, faults)
    ensures SoFar(l, CommitNext(s, i, ok, 0).l, CommitNext(s, i, ok, 0).pcs[i], x, req, faults + if ok then 0 else 1)
  {
    if CommitNext(s, i, ok, 0).pcs[i].CommitDone? {
      FailsAt(l, s.l, faults + if ok then 0 else 1, x, req);
    }
  }

  lemma OpenSoFar(s: State, i: nat, ok: bool, gap: nat, l: Ledger, x: string, req: Request, faults: nat)
    requires i < |s.pcs| && s.pcs[i].CommitOpen? && SoFar(l, s.l, s.pcs[i], x, req, faults)
    ensures
      var s' := CommitNext(s, i, ok, gap);
      SoFar(l, s'.l, s'.pcs[i], x, req, faults + if ok then 0 else 1)
  {
    if CommitNext(s, i, ok, gap).pcs[i].CommitDone? {
      FailsAt(l, CommitNext(s, i, ok, gap).l, faults + if ok then 0 else 1, x, req);
    }
  }

  ghost predicate OpenOk(l: Ledger, pc: Pc) {
    pc.CommitWrite? ==> Writing(l, pc.t, pc.tid, pc.n, pc.base, pc.req, pc.added)
  }

  lemma PublishSoFar(s: State, i: nat, gap: nat, l: Ledger, x: string, req: Request, faults: nat)
    requires i < |s.pcs| && Publishes(s, i, true) && OpenOk(s.l, s.pcs[i]) && SoFar(l, s.l, s.pcs[i], x, req, faults)
    ensures SoFar(l, CommitNext(s, i, true, gap).l, CommitNext(s, i, true, gap).pcs[i], x, req, faults)
  {
    var w, l' := s.pcs[i], CommitNext(s, i, true, gap).l;
    assert l' == Published(s.l, x, w.n, req, w.added);
    assert DrawnUpTo(l, l'.db) == s.l;
    assert Outcome(l, l', faults, x, req, ResultOf(Some(w.n)), w.added);
  }

  lemma WriteSoFar(s: State, i: nat, ok: bool, gap: nat, l: Ledger, x: string, req: Request, faults: nat)
    requires i < |s.pcs| && s.pcs[i].CommitWrite? && !Publishes(s, i, ok) && SoFar(l, s.l, s.pcs[i], x, req, faults)
    ensures
      var s' := CommitNext(s, i, ok, gap);
      SoFar(l, s'.l, s'.pcs[i], x, req, faults + if ok then 0 else 1)
  {
    if !ok {
      FailsAt(l, CommitNext(s, i, ok, gap).l, faults + 1, x, req);
    }
  }

  /** The steps that touch no ledger: locks, connections, the invalidation, the release. */
  lemma OtherSoFar(s: State, i: nat, ok: bool, gap: nat, l: Ledger, x: string, req: Request, faults: nat)
    requires i < |s.pcs| && CanGo(s, i) && SoFar(l, s.l, s.pcs[i], x, req, faults)
    requires s.pcs[i].CommitLock? || s.pcs[i].CommitConn? || s.pcs[i].CommitClear? || s.pcs[i].CommitDone?
             || s.pcs[i].CommitRelease?
    ensures SoFar(l, ThreadNext(s, i, ok, gap).l, ThreadNext(s, i, ok, gap).pcs[i], x, req, faults)
  {
    OtherNext(s, i, ok, gap);
  }

  lemma OtherNext(s: State, i: nat, ok: bool, gap: nat)
    requires i < |s.pcs| && CanGo(s, i)
    requires s.pcs[i].CommitLock? || s.pcs[i].CommitConn? || s.pcs[i].CommitClear? || s.pcs[i].CommitDone?
             || s.pcs[i].CommitRelease?
    ensures
      var pc, s' := s.pcs[i], ThreadNext(s, i, ok, gap);
      && s'.l == s.l && i < |s'.pcs|
      && match pc
         case CommitLock(_, x, req) =>
           s'.pcs[i] == CommitConn(x, req) || (s'.pcs[i].CommitLock? && s'.pcs[i].t == x && s'.pcs[i].req == req)
         case CommitConn(x, req) => s'.pcs[i] == CommitCheck(x, req) || s'.pcs[i].CommitRelease?
         case CommitClear(x, n) => s'.pcs[i] == CommitDone(x, Some(n))
         case _ => s'.pcs[i].CommitRelease? || s'.pcs[i].Idle?
  {
  }

  lemma StepSoFar(s: State, i: nat, ok: bool, gap: nat, l: Ledger, x: string, req: Request, faults: nat)
    requires i < |s.pcs| && OpenOk(s.l, s.pcs[i]) && CanGo(s, i) && SoFar(l, s.l, s.pcs[i], x, req, faults)
    ensures
      var s' := Next(s, Go(i, ok, gap));
      && i < |s'.pcs|
      && SoFar(l, s'.l, s'.pcs[i], x, req, faults + if Fault(s, Go(i, ok, gap)) then 1 else 0)
  {
    var pc := s.pcs[i];
    CommitStays(s, i, ok, gap);
    if pc.CommitCheck? {
      CheckSoFar(s, i, ok, l, x, req, faults);
    } else if pc.CommitOpen? {
      OpenSoFar(s, i, ok, gap, l, x, req, faults);
    } else if pc.CommitWrite? {
      if Publishes(s, i, ok) {
        PublishSoFar(s, i, gap, l, x, req, faults);
      } else {
        WriteSoFar(s, i, ok, gap, l, x, req, faults);
      }
    } else {
      OtherSoFar(s, i, ok, gap, l, x, req, faults);
    }
  }

  predicate OfCommit(pc: Pc) {
    pc.CommitLock? || pc.CommitConn? || pc.CommitCheck? || pc.CommitOpen? || pc.CommitWrite? || pc.CommitClear?
    || pc.CommitDone? || pc.CommitRelease?
  }

  lemma CommitStays(s: State, i: nat, ok: bool, gap: nat)
    requires i < |s.pcs| && CanGo(s, i) && OfCommit(s.pcs[i])
    ensures
      var s' := Next(s, Go(i, ok, gap));
      && i < |s'.pcs| && (!s.pcs[i].Gated() ==> s' == CommitNext(s, i, ok, gap))
      && (s.pcs[i].CommitCheck? ==> s' == CommitNext(s, i, ok, 0))
  {
  }

  lemma AloneRest(s: State, acts: seq<Action>, i: nat)
    requires Alone(acts, i) && acts != []
    ensures acts[0].Go? && acts[0].i == i && Alone(acts[1..], i)
    ensures Enabled(s, acts[0]) ==> i < |s.pcs| && CanGo(s, i) && acts[0] == Go(i, acts[0].ok, acts[0].gap)
  {
    assert forall k :: 0 <= k < |acts[1..]| ==> acts[1..][k] == acts[k + 1];
  }

  /** What thread i has drawn for its open commit stays true throughout the run. */
  ghost predicate KnowsItsLocals(s: State, acts: seq<Action>, i: nat)
    requires Runs(s, acts)
    decreases |acts|
  {
    i < |s.pcs| && OpenOk(s.l, s.pcs[i]) && (acts == [] || KnowsItsLocals(Next(s, acts[0]), acts[1..], i))
  }

  lemma {:induction false} InvKnowsLocals(s: State, acts: seq<Action>, i: nat)
    requires Inv(s) && i < |s.pcs| && Runs(s, acts)
    ensures KnowsItsLocals(s, acts, i)
    decreases |acts|
  {
    assert LocalOk(s.l, s.pcs[i]);
    if acts != [] {
      StepInv(s, acts[0]);
      OthersStay(s, acts[0]);
      InvKnowsLocals(Next(s, acts[0]), acts[1..], i);
    }
  }

  lemma {:induction false} RunSoFar(s: State, acts: seq<Action>, i: nat, l: Ledger, x: string, req: Request,
      faults: nat)
    requires Runs(s, acts) && Alone(acts, i) && KnowsItsLocals(s, acts, i) && ReachedAt(l, s, i, x, req, faults)
    ensures
      var s' := After(s, acts);
      i < |s'.pcs| && s'.pcs[i].CommitDone? ==> Ends(l, s'.l, faults + Faults(s, acts), x, req, s'.pcs[i].committed)
    decreases |acts|
  {
    if acts == [] {
      Answered(l, s, i, x, req, faults);
    } else {
      AloneRest(s, acts, i);
      StepReached(s, i, acts[0].ok, acts[0].gap, l, x, req, faults);
      RunSoFar(Next(s, acts[0]), acts[1..], i, l, x, req, faults + if Fault(s, acts[0]) then 1 else 0);
    }
  }

  /** Thread i has got to where it is with this many failed statements. */
  ghost predicate ReachedAt(l: Ledger, s: State, i: nat, x: string, req: Request, faults: nat) {
    exists n: nat :: n == faults && i < |s.pcs| && SoFar(l, s.l, s.pcs[i], x, req, n)
  }

  lemma StepReached(s: State, i: nat, ok: bool, gap: nat, l: Ledger, x: string, req: Request, faults: nat)
    requires i < |s.pcs| && OpenOk(s.l, s.pcs[i]) && CanGo(s, i) && ReachedAt(l, s, i, x, req, faults)
    ensures ReachedAt(l, Next(s, Go(i, ok, gap)), i, x, req, faults + if Fault(s, Go(i, ok, gap)) then 1 else 0)
  {
    StepSoFar(s, i, ok, gap, l, x, req, faults);
  }

  lemma Answered(l: Ledger, s: State, i: nat, x: string, req: Request, faults: nat)
    requires ReachedAt(l, s, i, x, req, faults)
    ensures i < |s.pcs| && s.pcs[i].CommitDone? ==> Ends(l, s.l, faults, x, req, s.pcs[i].committed)
  {
  }

  /** Whatever its statements do, an uninterrupted commit thread that reaches its
      answer has done to the ledger what commit_snapshot's contract says, with that answer. */
  lemma CommitThreadIsCommitSnapshot(s: State, acts: seq<Action>, i: nat, x: string, req: Request)
    requires Inv(s) && i < |s.pcs| && s.pcs[i] == CommitLock(Asking, x, req)
    requires Runs(s, acts) && Alone(acts, i) && i < |After(s, acts).pcs| && After(s, acts).pcs[i].CommitDone?
    ensures
      var s' := After(s, acts);
      exists added :: Outcome(s.l, s'.l, Faults(s, acts), x, req, ResultOf(s'.pcs[i].committed), added)
  {
    InvKnowsLocals(s, acts, i);
    assert SoFar(s.l, s.l, s.pcs[i], x, req, 0);
    RunSoFar(s, acts, i, s.l, x, req, 0);
    assert Ends(s.l, After(s, acts).l, Faults(s, acts), x, req, After(s, acts).pcs[i].committed);
  }

  /** The same for the one step in which a catalog thread's statements run. */
  lemma DdlStepIsCatalogManager(s: State, i: nat, ok: bool, gap: nat)
    requires i < |s.pcs| && s.pcs[i].DdlRun?
    ensures Enabled(s, Go(i, ok, gap))
    ensures
      var s' := Next(s, Go(i, ok, gap));
      && i < |s'.pcs| && s'.pcs[i].DdlDone? && s'.pcs[i].end.Ended?
      && CatalogManager.Outcome(s.l, s'.l, if ok then 0 else 1, s.pcs[i].op, s'.pcs[i].end.ok)
  {
    DdlRunNext(s, i, ok, gap);
  }

  /** So a catalog thread's reply is true: success is what the operation says, in the columns
      of the tables, and comes exactly when it is possible and its statements work. */
  lemma CatalogRepliesAreTrue(s: State, i: nat, ok: bool, gap: nat)
    requires Ok(s.l) && i < |s.pcs| && s.pcs[i].DdlRun?
    ensures Enabled(s, Go(i, ok, gap))
    ensures
      var s' := Next(s, Go(i, ok, gap));
      && i < |s'.pcs| && s'.pcs[i].DdlDone? && s'.pcs[i].end.Ended?
      && CatalogManager.Effective(s.l.db, s'.l.db, if ok then 0 else 1, s.pcs[i].op, s'.pcs[i].end.ok)
  {
    var s' := Next(s, Go(i, ok, gap));
    DdlStepIsCatalogManager(s, i, ok, gap);
    CatalogManager.OutcomeEffective(s.l, s'.l, if ok then 0 else 1, s.pcs[i].op, s'.pcs[i].end.ok);
  }
}
