/** Handlers that run without interruption. A commit that meets no failure and
    names the current snapshot goes through; and every uninterrupted run of a
    commit or catalog thread ends as the sequential code does. */
module Solo {
  import opened Store
  import opened History
  import opened Registry
  import opened Serving
  import opened Invariant

  // ---- A run that goes through ----

  lemma StepOn(s: State, i: nat, acts: seq<Action>)
    requires Enabled(s, Go(i, true, 0)) && Runs(Next(s, Go(i, true, 0)), acts)
    ensures Runs(s, [Go(i, true, 0)] + acts)
    ensures After(s, [Go(i, true, 0)] + acts) == After(Next(s, Go(i, true, 0)), acts)
  {
    RunFurther(s, Go(i, true, 0), acts);
  }

  lemma InsertStep(s: State, i: nat)
    requires i < |s.pcs| && s.pcs[i].CommitWrite? && |s.pcs[i].added| < |s.pcs[i].req.added|
    ensures
      var w, l := s.pcs[i], Drawn(s.l, 0, 0, 1);
      var row := NewRow(l.db.lastPartition, w.tid, w.n, w.req.added[|w.added|]);
      && Enabled(s, Go(i, true, 0))
      && Next(s, Go(i, true, 0)) == At(s.(l := l), i, w.(added := w.added + [row]))
  {
  }

  lemma MarkStep(s: State, i: nat)
    requires i < |s.pcs| && s.pcs[i].CommitWrite?
    requires |s.pcs[i].added| >= |s.pcs[i].req.added| && s.pcs[i].marked < |s.pcs[i].req.deleted|
    ensures Enabled(s, Go(i, true, 0))
    ensures Next(s, Go(i, true, 0)) == At(s, i, s.pcs[i].(marked := s.pcs[i].marked + 1))
  {
  }

  lemma PublishStep(s: State, i: nat)
    requires i < |s.pcs| && Publishes(s, i, true) && s.pcs[i].t in s.l.db.tables
    ensures
      var w := s.pcs[i];
      && Enabled(s, Go(i, true, 0))
      && Next(s, Go(i, true, 0)) == At(s.(l := Published(s.l, w.t, w.n, w.req, w.added)), i, CommitClear(w.t, w.n))
  {
  }

  /** The state with the open commit w published, after drawing some more ids. */
  ghost predicate PublishedBy(s: State, i: nat, w: Pc, s': State, drawn: nat, added: Rows)
    requires i < |s.pcs| && w.CommitWrite?
  {
    var l := Drawn(s.l, 0, 0, drawn);
    && |added| == |w.req.added| && Writing(l, w.t, w.tid, w.n, w.base, w.req, added)
    && s' == At(s.(l := Published(l, w.t, w.n, w.req, added)), i, CommitClear(w.t, w.n))
  }

  lemma PublishedByEarlier(s: State, i: nat, w': Pc, d: nat, end: State, more: nat, added: Rows)
    requires i < |s.pcs| && s.pcs[i].CommitWrite? && w'.CommitWrite?
    requires var w := s.pcs[i]; w'.t == w.t && w'.tid == w.tid && w'.n == w.n && w'.base == w.base && w'.req == w.req
    requires PublishedBy(At(s.(l := Drawn(s.l, 0, 0, d)), i, w'), i, w', end, more, added)
    ensures PublishedBy(s, i, s.pcs[i], end, d + more, added)
  {
    assert Drawn(Drawn(s.l, 0, 0, d), 0, 0, more) == Drawn(s.l, 0, 0, d + more);
  }

  /** Statement by statement, an open commit whose statements all work gets published. */
  lemma {:induction false} CommitWrites(s: State, i: nat) returns (acts: seq<Action>, drawn: nat, added: Rows)
    requires Inv(s) && i < |s.pcs| && s.pcs[i].CommitWrite?
    ensures Runs(s, acts) && PublishedBy(s, i, s.pcs[i], After(s, acts), drawn, added)
    decreases |s.pcs[i].req.added| - |s.pcs[i].added| + |s.pcs[i].req.deleted| - s.pcs[i].marked
  {
    var w := s.pcs[i];
    assert LocalOk(s.l, w);
    if |w.added| < |w.req.added| || w.marked < |w.req.deleted| {
      var s', d := WriteOn(s, i);
      var rest;
      rest, drawn, added := CommitWrites(s', i);
      StepOn(s, i, rest);
      acts := [Go(i, true, 0)] + rest;
      PublishedByEarlier(s, i, s'.pcs[i], d, After(s', rest), drawn, added);
      drawn := d + drawn;
    } else {
      PublishStep(s, i);
      StepOn(s, i, []);
      acts, drawn, added := [Go(i, true, 0)] + [], 0, w.added;
      assert Drawn(s.l, 0, 0, 0) == s.l;
    }
  }

  /** One more statement of an open commit, an INSERT or a mark. */
  lemma WriteOn(s: State, i: nat) returns (s': State, d: nat)
    requires Inv(s) && i < |s.pcs| && s.pcs[i].CommitWrite?
    requires |s.pcs[i].added| < |s.pcs[i].req.added| || s.pcs[i].marked < |s.pcs[i].req.deleted|
    ensures Enabled(s, Go(i, true, 0)) && s' == Next(s, Go(i, true, 0)) && Inv(s') && |s'.pcs| == |s.pcs|
    ensures s' == At(s.(l := Drawn(s.l, 0, 0, d)), i, s'.pcs[i])
    ensures
      var w, w' := s.pcs[i], s'.pcs[i];
      && w'.CommitWrite? && w'.t == w.t && w'.tid == w.tid && w'.n == w.n && w'.base == w.base && w'.req == w.req
      && |w.req.added| - |w'.added| + |w.req.deleted| - w'.marked
         < |w.req.added| - |w.added| + |w.req.deleted| - w.marked
  {
    if |s.pcs[i].added| < |s.pcs[i].req.added| {
      InsertStep(s, i);
      d := 1;
    } else {
      MarkStep(s, i);
      assert Drawn(s.l, 0, 0, 0) == s.l;
      d := 0;
    }
    s' := Next(s, Go(i, true, 0));
    StepInv(s, Go(i, true, 0));
  }

  /** The check of a commit that names what its SELECT of the pointer returns. */
  predicate PassesCheck(db: Store, x: string, req: Request, readOk: bool) {
    req.parent == if readOk then CurrentSnapshot(db, x) else 0
  }

  lemma LockSteps(s: State, i: nat, x: string, req: Request)
    requires i < |s.pcs|
    ensures s.pcs[i] == CommitLock(Waiting, x, req) && FreeForExclusive(s, x) ==>
      Enabled(s, Go(i, true, 0)) && Next(s, Go(i, true, 0)) == At(s, i, CommitConn(x, req))
    ensures s.pcs[i] == CommitConn(x, req) && s.free > 0 ==>
      Enabled(s, Go(i, true, 0)) && Next(s, Go(i, true, 0)) == At(s.(free := s.free - 1), i, CommitCheck(x, req))
  {
  }

  lemma CheckSteps(s: State, i: nat, x: string, req: Request, readOk: bool)
    requires i < |s.pcs|
    ensures s.pcs[i] == CommitCheck(x, req) && PassesCheck(s.l.db, x, req, readOk) ==>
      Enabled(s, Go(i, readOk, 0)) && Next(s, Go(i, readOk, 0)) == At(s, i, CommitOpen(x, req, readOk))
    ensures s.pcs[i] == CommitOpen(x, req, readOk) && IsLive(s.l.db, x) ==>
      && Enabled(s, Go(i, true, 0))
      && Next(s, Go(i, true, 0)) == At(s.(l := Drawn(s.l, 0, 1, 0)), i, Opened(s.l, x, req, readOk))
  {
  }

  function Opened(l: Ledger, x: string, req: Request, readOk: bool): Pc
    requires IsLive(l.db, x)
  {
    CommitWrite(x, req, readOk, l.db.tables[x].id, l.db.lastSnapshot + 1, l.db.lastPartition, [], 0)
  }

  /** From the commit's lock to its open transaction. */
  lemma CommitOpens(s: State, i: nat, x: string, req: Request, readOk: bool) returns (acts: seq<Action>)
    requires i < |s.pcs| && s.pcs[i] == CommitLock(Waiting, x, req) && FreeForExclusive(s, x) && s.free > 0
    requires IsLive(s.l.db, x) && PassesCheck(s.l.db, x, req, readOk)
    ensures Runs(s, acts)
    ensures After(s, acts) == At(s.(l := Drawn(s.l, 0, 1, 0), free := s.free - 1), i, Opened(s.l, x, req, readOk))
  {
    var s1 := At(s, i, CommitConn(x, req));
    var s2 := At(s.(free := s.free - 1), i, CommitCheck(x, req));
    var s3 := At(s.(free := s.free - 1), i, CommitOpen(x, req, readOk));
    LockSteps(s, i, x, req);
    LockSteps(s1, i, x, req);
    CheckSteps(s2, i, x, req, readOk);
    CheckSteps(s3, i, x, req, readOk);
    assert At(s1.(free := s1.free - 1), i, CommitCheck(x, req)) == s2 && At(s2, i, CommitOpen(x, req, readOk)) == s3;
    StepOn(s3, i, []);
    RunFurther(s2, Go(i, readOk, 0), [Go(i, true, 0)] + []);
    var rest := [Go(i, readOk, 0)] + ([Go(i, true, 0)] + []);
    StepOn(s1, i, rest);
    StepOn(s, i, [Go(i, true, 0)] + rest);
    acts := [Go(i, true, 0)] + ([Go(i, true, 0)] + rest);
  }

  /** From an idle thread to its open transaction. */
  lemma RequestOpens(s: State, i: nat, x: string, req: Request, readOk: bool) returns (acts: seq<Action>)
    requires i < |s.pcs| && s.pcs[i].Idle? && s.registry.None? && FreeForExclusive(s, x) && s.free > 0
    requires IsLive(s.l.db, x) && PassesCheck(s.l.db, x, req, readOk)
    ensures Runs(s, acts) && After(s, acts).l == Drawn(s.l, 0, 1, 0)
    ensures After(s, acts).pcs == s.pcs[i := Opened(s.l, x, req, readOk)]
  {
    var first := RequestReached(s, i, CommitLock(Asking, x, req));
    var s1 := After(s, first);
    assert FreeForExclusive(s1, x);
    var second := CommitOpens(s1, i, x, req, readOk);
    RunOn(s, first, second);
    acts := first + second;
  }

  /** thread i's commit of req has been published as snapshot n. */
  ghost predicate WentThrough(s: State, i: nat, x: string, req: Request, s': State, n: nat, drawn: nat, added: Rows)
    requires i < |s.pcs| && IsLive(s.l.db, x)
  {
    var l := Drawn(s.l, 0, 1, drawn);
    && n == s.l.db.lastSnapshot + 1 && s'.pcs == s.pcs[i := CommitClear(x, n)]
    && |added| == |req.added| && Writing(l, x, s.l.db.tables[x].id, n, s.l.db.lastPartition, req, added)
    && s'.l == Published(l, x, n, req, added)
  }

  lemma ThroughOnceOpened(s: State, i: nat, x: string, req: Request, readOk: bool, s2: State, s': State, drawn: nat,
      added: Rows)
    requires i < |s.pcs| && IsLive(s.l.db, x)
    requires s2.l == Drawn(s.l, 0, 1, 0) && s2.pcs == s.pcs[i := Opened(s.l, x, req, readOk)]
    requires PublishedBy(s2, i, Opened(s.l, x, req, readOk), s', drawn, added)
    ensures WentThrough(s, i, x, req, s', s.l.db.lastSnapshot + 1, drawn, added)
  {
    assert Drawn(Drawn(s.l, 0, 1, 0), 0, 0, drawn) == Drawn(s.l, 0, 1, drawn);
  }

  /** An uninterrupted commit on a live table, with a connection to take and nobody in
      its way, whose transaction's statements all work, goes through if it names the
      table's pointer, or if it names 0 and the SELECT of the pointer is what fails. */
  lemma CommitGoesThrough(s: State, i: nat, x: string, req: Request, readOk: bool)
    returns (acts: seq<Action>, n: nat, drawn: nat, added: Rows)
    requires Inv(s) && i < |s.pcs| && s.pcs[i].Idle? && s.registry.None? && FreeForExclusive(s, x) && s.free > 0
    requires IsLive(s.l.db, x) && PassesCheck(s.l.db, x, req, readOk)
    ensures Runs(s, acts) && WentThrough(s, i, x, req, After(s, acts), n, drawn, added)
  {
    n := s.l.db.lastSnapshot + 1;
    var first := RequestOpens(s, i, x, req, readOk);
    var s2 := After(s, first);
    RunInv(s, first);
    var rest;
    rest, drawn, added := CommitWrites(s2, i);
    ThroughOnceOpened(s, i, x, req, readOk, s2, After(s2, rest), drawn, added);
    RunOn(s, first, rest);
    acts := first + rest;
  }
}
