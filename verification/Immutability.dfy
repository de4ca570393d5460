/** Time travel: what a table shows at an old snapshot never changes, whatever
    runs meanwhile, and a paged scan that spans many runs still reads one state. */
module Immutability {
  import opened Options
  import opened CacheKeys
  import opened Store
  import opened Replay
  import opened History
  import opened Catalog
  import opened Serving
  import opened Invariant
  import Statistics

  /** No commit on x can still publish a snapshot numbered snap or less. */
  ghost predicate Settled(s: State, x: string, snap: nat) {
    && snap <= s.l.db.lastSnapshot
    && forall i :: 0 <= i < |s.pcs| && s.pcs[i].CommitWrite? && s.pcs[i].t == x ==> snap < s.pcs[i].n
  }

  /** A reader's shared lock settles every snapshot number issued so far. */
  lemma SharedLockSettles(s: State, i: nat, x: string, snap: nat)
    requires Inv(s) && i < |s.pcs| && x in s.pcs[i].Shared() && snap <= s.l.db.lastSnapshot
    ensures Settled(s, x, snap)
  {
    forall j | 0 <= j < |s.pcs| && s.pcs[j].CommitWrite? ensures s.pcs[j].t != x {
      assert s.pcs[j].t in s.pcs[j].Excl();
    }
  }

  /** Applying a change changes nothing iff it removes none of the rows and keeps none of its own. */
  lemma AppliesToNothing(rows: seq<PartitionRow>, d: Delta)
    ensures Apply(rows, d) == rows <==>
            && (forall i :: 0 <= i < |rows| ==> rows[i].data.key !in d.deleted)
            && (forall i :: 0 <= i < |d.added| ==> d.added[i].data.key in d.deleted)
  {
    DropKeysConcat(rows, d.added, d.deleted);
    KeptKeys(rows, d.deleted);
    KeptKeys(d.added, d.deleted);
    if Apply(rows, d) == rows {
      KeptKeys(rows + d.added, d.deleted);
    }
  }

  /** A published commit removes no visible row, and none of its own outlives it. */
  ghost predicate ChangesNothing(before: Rows, added: Rows, keys: set<string>) {
    && (forall k :: 0 <= k < |before| ==> before[k].data.key !in keys)
    && (forall k :: 0 <= k < |added| ==> added[k].data.key in keys)
  }

  lemma PublishedChanges(l: Ledger, x: string, tid: nat, n: nat, base: nat, req: Request, added: Rows, snap: nat)
    requires Ok(l) && Writing(l, x, tid, n, base, req, added) && n <= snap <= MAX_BIGINT
    ensures QueryPartitions(l.db, x, snap).Some?
    ensures QueryPartitions(Published(l, x, n, req, added).db, x, snap) == QueryPartitions(l.db, x, snap) <==>
            ChangesNothing(QueryPartitions(l.db, x, snap).value, added, KeySet(req.deleted))
  {
    Statistics.CommitApplies(l, x, tid, n, base, req, added, snap);
    AppliesToNothing(QueryPartitions(l.db, x, snap).value, Delta(tid, added, KeySet(req.deleted)));
  }

  /** Settled is needed: a snapshot number that an open commit has drawn, or a
      later one, reads differently once that commit is published, unless the
      commit removes no visible row and none of its own rows outlives it. */
  lemma UnsettledReadsChange(s: State, i: nat, snap: nat)
    requires Inv(s) && i < |s.pcs| && Publishes(s, i, true) && CanGo(s, i)
    requires s.pcs[i].n <= snap <= MAX_BIGINT
    ensures QueryPartitions(s.l.db, s.pcs[i].t, snap).Some?
    ensures
      var before, after := QueryPartitions(s.l.db, s.pcs[i].t, snap),
                           QueryPartitions(Next(s, Go(i, true, 0)).l.db, s.pcs[i].t, snap);
      after == before <==> ChangesNothing(before.value, s.pcs[i].added, KeySet(s.pcs[i].req.deleted))
  {
    var w := s.pcs[i];
    assert LocalOk(s.l, w);
    PublishedChanges(s.l, w.t, w.tid, w.n, w.base, w.req, w.added, snap);
    PublishingNext(s, i, 0);
  }

  /** An operation after which a name still means the same table did not touch it. */
  lemma SameNameSameTable(l: Ledger, op: Ddl, x: string, snap: nat)
    requires TablesOk(l.db) && Effect(l, op).Some?
    requires IsLive(l.db, x) && TableId(Effect(l, op).value.db, x) == TableId(l.db, x)
    ensures QueryPartitions(Effect(l, op).value.db, x, snap) == QueryPartitions(l.db, x, snap)
    ensures Effect(l, op).value.db.lastSnapshot == l.db.lastSnapshot
  {
    if x !in op.Names() || op.Alter? {
      EffectQuery(l, op, x, snap);
    }
  }

  /** A commit's step keeps x's snapshot numbers settled: a new one it draws is above them. */
  lemma StepKeepsSettled(s: State, a: Action, x: string, snap: nat)
    requires Enabled(s, a) && Settled(s, x, snap) && Next(s, a).l.db.lastSnapshot >= s.l.db.lastSnapshot
    ensures Settled(Next(s, a), x, snap)
  {
    OthersStay(s, a);
    if a.Go? && !s.pcs[a.i].Gated() {
      WorkKeepsSettled(s, a.i, a.ok, a.gap, x, snap);
    }
  }

  lemma WorkKeepsSettled(s: State, i: nat, ok: bool, gap: nat, x: string, snap: nat)
    requires i < |s.pcs| && MayWork(s, i) && snap <= s.l.db.lastSnapshot
    requires s.pcs[i].CommitWrite? && s.pcs[i].t == x ==> snap < s.pcs[i].n
    ensures
      var pcs' := ThreadNext(s, i, ok, gap).pcs;
      i < |pcs'| && (pcs'[i].CommitWrite? && pcs'[i].t == x ==> snap < pcs'[i].n)
  {
    if s.pcs[i].ReadLock? || s.pcs[i].Shared() != {} {
      ReadOpensNothing(s, i, ok);
    }
  }

  lemma ReadOpensNothing(s: State, i: nat, ok: bool)
    requires i < |s.pcs| && MayWork(s, i) && (s.pcs[i].ReadLock? || s.pcs[i].Shared() != {})
    ensures var pcs' := ReadNext(s, i, ok).pcs; i < |pcs'| && !pcs'[i].CommitWrite?
  {
  }

  lemma PublishingKeepsOldReads(s: State, i: nat, gap: nat, x: string, snap: nat)
    requires Inv(s) && i < |s.pcs| && Publishes(s, i, true) && Settled(s, x, snap)
    ensures
      && Enabled(s, Go(i, true, gap)) && Next(s, Go(i, true, gap)).l.db.lastSnapshot >= s.l.db.lastSnapshot
      && QueryPartitions(Next(s, Go(i, true, gap)).l.db, x, snap) == QueryPartitions(s.l.db, x, snap)
  {
    var w := s.pcs[i];
    assert LocalOk(s.l, w);
    PublishingNext(s, i, gap);
    PublishedQuery(s.l, w.t, w.tid, w.n, w.base, w.req, w.added, x, snap);
  }

  lemma DdlKeepsOldReads(s: State, i: nat, ok: bool, gap: nat, x: string, snap: nat)
    requires Inv(s) && i < |s.pcs| && s.pcs[i].DdlRun? && IsLive(s.l.db, x) && CanGo(s, i)
    requires TableId(Next(s, Go(i, ok, gap)).l.db, x) == TableId(s.l.db, x)
    ensures Next(s, Go(i, ok, gap)).l.db.lastSnapshot >= s.l.db.lastSnapshot
    ensures QueryPartitions(Next(s, Go(i, ok, gap)).l.db, x, snap) == QueryPartitions(s.l.db, x, snap)
  {
    var l, op := Drawn(s.l, gap, 0, 0), s.pcs[i].op;
    DdlRunNext(s, i, ok, gap);
    DrawnOk(s.l, gap, 0, 0);
    if ok && Effect(l, op).Some? {
      SameNameSameTable(l, op, x, snap);
    }
  }

  lemma StepKeepsOldReads(s: State, a: Action, x: string, snap: nat)
    requires Inv(s) && Enabled(s, a) && Settled(s, x, snap)
    requires IsLive(s.l.db, x) && TableId(Next(s, a).l.db, x) == TableId(s.l.db, x)
    ensures Settled(Next(s, a), x, snap)
    ensures QueryPartitions(Next(s, a).l.db, x, snap) == QueryPartitions(s.l.db, x, snap)
  {
    if !Writes(s, a) {
      var snapshots, partitions := QuietNext(s, a);
      DrawnOk(s.l, 0, snapshots, partitions);
    } else if s.pcs[a.i].DdlRun? {
      DdlKeepsOldReads(s, a.i, a.ok, a.gap, x, snap);
    } else {
      PublishingKeepsOldReads(s, a.i, a.gap, x, snap);
    }
    StepKeepsSettled(s, a, x, snap);
  }

  /** Throughout the run the name means the same live table: it is not dropped or renamed. */
  ghost predicate Keeps(s: State, acts: seq<Action>, x: string, tid: nat)
    requires Runs(s, acts)
    decreases |acts|
  {
    TableId(s.l.db, x) == Some(tid) && (acts == [] || Keeps(Next(s, acts[0]), acts[1..], x, tid))
  }

  /** Snapshot immutability: a settled snapshot of a table reads the same after
      any run, with any commits and rollbacks on any tables in it. */
  lemma {:induction false} OldReadsNeverChange(s: State, acts: seq<Action>, x: string, tid: nat, snap: nat)
    requires Inv(s) && Settled(s, x, snap) && Runs(s, acts) && Keeps(s, acts, x, tid)
    ensures Inv(After(s, acts)) && Settled(After(s, acts), x, snap)
    ensures TableId(After(s, acts).l.db, x) == Some(tid)
    ensures QueryPartitions(After(s, acts).l.db, x, snap) == QueryPartitions(s.l.db, x, snap)
    decreases |acts|
  {
    if acts != [] {
      StepInv(s, acts[0]);
      StepKeepsOldReads(s, acts[0], x, snap);
      OldReadsNeverChange(Next(s, acts[0]), acts[1..], x, tid, snap);
    }
  }

  // ---- Paging ----

  /** Scanning on from the k-th row's id yields exactly the rows after it. */
  lemma {:induction false} ScanAfterRow(p: map<nat, Tuple>, tid: nat, snap: nat, hi: nat, k: nat)
    requires forall id :: id in p ==> p[id].row.id == id
    requires 0 < k <= |Scan(p, tid, snap, 0, hi)|
    ensures Scan(p, tid, snap, Scan(p, tid, snap, 0, hi)[k - 1].id, hi) == Scan(p, tid, snap, 0, hi)[k..]
    decreases hi
  {
    var q, before := Scan(p, tid, snap, 0, hi), Scan(p, tid, snap, 0, hi - 1);
    if k <= |before| {
      ScanIds(p, tid, snap, 0, hi - 1);
      ScanAfterRow(p, tid, snap, hi - 1, k);
      assert q[k - 1] == before[k - 1];
      assert q[k..] == before[k..] + q[|before|..];
    } else {
      assert Scan(p, tid, snap, hi, hi) == [];
    }
  }

  /** page is the rows of the whole from the k-th on, as many as there are but at most most. */
  ghost predicate NextRows(page: Rows, whole: Rows, k: nat, most: int) {
    && |page| == (if |whole| - k <= most then |whole| - k else most)
    && forall j :: 0 <= j < |page| ==> page[j] == whole[k + j]
  }

  /** The next page: what is left of the whole, cut to the limit, or to 1000 rows. */
  lemma PageIsNextRows(s: State, x: string, snap: nat, limit: int, whole: Rows, k: nat)
    requires Inv(s) && QueryPartitions(s.l.db, x, snap) == Some(whole) && k <= |whole|
    ensures
      var page := QueryPage(s.l.db, x, snap, limit, if k == 0 then 0 else whole[k - 1].id);
      page.Some? && NextRows(page.value, whole, k, if limit > 0 then limit else 1000)
  {
    if k > 0 {
      ScanIds(s.l.db.partitions, s.l.db.tables[x].id, snap, 0, s.l.db.lastPartition);
      ScanAfterRow(s.l.db.partitions, s.l.db.tables[x].id, snap, s.l.db.lastPartition, k);
    }
  }

  /** A client that pages: before each page the server has run some more; each page
      feeds its last partition id, printed and parsed again, into the next request;
      asked adds up the page sizes of the requests answered. */
  datatype Client = Client(collected: Rows, token: string, ended: bool, asked: int)

  function LastId(token: string): int {
    var n := ParseDecimal(token);
    if n.Some? then n.value else 0
  }

  function Received(c: Client, page: Rows, limit: int): Client {
    if page == [] then c.(ended := true, asked := c.asked + limit)
    else Client(c.collected + page, Decimal(page[|page| - 1].id), false, c.asked + limit)
  }

  /** The client after thread i's reply. */
  function Answered(s: State, i: nat, c: Client): Client
    requires i < |s.pcs| && s.pcs[i].ReadDone? && s.pcs[i].result.Some? && s.pcs[i].kind.Page?
  {
    Received(c, s.pcs[i].result.value, s.pcs[i].kind.limit)
  }

  /** Thread i has answered the client's next request, for the page after its token. */
  ghost predicate Replies(s: State, i: nat, x: string, snap: nat, c: Client) {
    && i < |s.pcs| && s.pcs[i].ReadDone? && s.pcs[i].t == x && s.pcs[i].snap == snap && s.pcs[i].result.Some?
    && s.pcs[i].kind.Page? && s.pcs[i].kind.limit > 0 && s.pcs[i].kind.last == LastId(c.token)
  }

  /** The server runs, and then thread i has the client's next page. */
  datatype Round = Round(acts: seq<Action>, i: nat)

  /** One reply after each round's run, until a page comes back empty. */
  ghost predicate PagingRuns(s: State, x: string, tid: nat, snap: nat, rounds: seq<Round>, c: Client)
    decreases |rounds|
  {
    rounds == [] || c.ended ||
    (var r := rounds[0];
     && Runs(s, r.acts) && Keeps(s, r.acts, x, tid) && Replies(After(s, r.acts), r.i, x, snap, c)
     && PagingRuns(After(s, r.acts), x, tid, snap, rounds[1..], Answered(After(s, r.acts), r.i, c)))
  }

  ghost function Paged(s: State, x: string, tid: nat, snap: nat, rounds: seq<Round>, c: Client): Client
    requires PagingRuns(s, x, tid, snap, rounds, c)
    decreases |rounds|
  {
    if rounds == [] || c.ended then c
    else
      var s' := After(s, rounds[0].acts);
      Paged(s', x, tid, snap, rounds[1..], Answered(s', rounds[0].i, c))
  }

  function Least(a: int, b: int): int {
    if a <= b then a else b
  }

  /** The client has collected the first k rows of the whole, and its token is the last one's id. */
  ghost predicate Collected(c: Client, whole: Rows, k: nat) {
    && k == Least(c.asked, |whole|) && c.collected == whole[..k]
    && c.token == (if k == 0 then "" else Decimal(whole[k - 1].id))
    && (c.ended ==> k == |whole|)
  }

  lemma TokenIsLastId(c: Client, whole: Rows, k: nat)
    requires Collected(c, whole, k)
    ensures LastId(c.token) == if k == 0 then 0 else whole[k - 1].id
  {
    if k > 0 {
      DecimalRoundTrip(whole[k - 1].id);
    }
  }

  lemma ReceivedCollects(c: Client, whole: Rows, k: nat, limit: int, page: Rows)
    requires Collected(c, whole, k) && limit > 0 && NextRows(page, whole, k, limit)
    ensures Collected(Received(c, page, limit), whole, k + |page|) && (Received(c, page, limit).ended <==> page == [])
  {
    assert whole[..k] + page == whole[..k + |page|];
  }

  /** What a thread answers a paging client is the next rows of the full read: as many
      as the page size, and fewer only if no more are left. */
  lemma ReplyIsNextRows(s: State, i: nat, x: string, snap: nat, whole: Rows, c: Client, k: nat)
    requires Inv(s) && QueryPartitions(s.l.db, x, snap) == Some(whole)
    requires Collected(c, whole, k) && Replies(s, i, x, snap, c)
    ensures NextRows(s.pcs[i].result.value, whole, k, s.pcs[i].kind.limit)
  {
    var kind := s.pcs[i].kind;
    assert LocalOk(s.l, s.pcs[i]);
    TokenIsLastId(c, whole, k);
    PageIsNextRows(s, x, snap, kind.limit, whole, k);
    PageOfWhole(s.l.db, x, snap, kind);
  }

  lemma ReplyCollects(s: State, i: nat, x: string, snap: nat, whole: Rows, c: Client, k: nat) returns (k': nat)
    requires Inv(s) && QueryPartitions(s.l.db, x, snap) == Some(whole)
    requires Collected(c, whole, k) && Replies(s, i, x, snap, c)
    ensures Collected(Answered(s, i, c), whole, k') && (Answered(s, i, c).ended || k < k')
  {
    ReplyIsNextRows(s, i, x, snap, whole, c, k);
    k' := AnsweredCollects(s, i, whole, c, k);
  }

  lemma AnsweredCollects(s: State, i: nat, whole: Rows, c: Client, k: nat) returns (k': nat)
    requires i < |s.pcs| && s.pcs[i].ReadDone? && s.pcs[i].result.Some? && s.pcs[i].kind.Page?
    requires Collected(c, whole, k) && s.pcs[i].kind.limit > 0
    requires NextRows(s.pcs[i].result.value, whole, k, s.pcs[i].kind.limit)
    ensures Collected(Answered(s, i, c), whole, k') && (Answered(s, i, c).ended || k < k')
  {
    k' := k + |s.pcs[i].result.value|;
    ReceivedCollects(c, whole, k, s.pcs[i].kind.limit, s.pcs[i].result.value);
  }

  /** The replies of a paged scan of a settled snapshot never skip or repeat a row, and
      bring as many rows as the client asked for, as long as there are more. */
  lemma {:induction false} PagedScanIsOneRead(s: State, x: string, tid: nat, snap: nat, rounds: seq<Round>,
      whole: Rows, c: Client, k: nat) returns (k': nat)
    requires Inv(s) && Settled(s, x, snap) && PagingRuns(s, x, tid, snap, rounds, c)
    requires QueryPartitions(s.l.db, x, snap) == Some(whole) && Collected(c, whole, k)
    ensures Collected(Paged(s, x, tid, snap, rounds, c), whole, k')
    ensures Paged(s, x, tid, snap, rounds, c).ended || k + |rounds| <= k'
    decreases |rounds|
  {
    if rounds == [] || c.ended {
      k' := k;
    } else {
      var r := rounds[0];
      OldReadsNeverChange(s, r.acts, x, tid, snap);
      var s' := After(s, r.acts);
      var mid := ReplyCollects(s', r.i, x, snap, whole, c, k);
      k' := PagedScanIsOneRead(s', x, tid, snap, rounds[1..], whole, Answered(s', r.i, c), mid);
    }
  }

  lemma CollectedSoFar(c: Client, whole: Rows, k: nat)
    requires Collected(c, whole, k)
    ensures c.collected <= whole && |c.collected| == k && (c.ended ==> c.collected == whole)
  {
    assert c.ended ==> whole[..k] == whole;
  }

  const NEWCOMER: Client := Client([], "", false, 0)

  /** A paged scan under concurrent commits. From the state in which thread i has
      answered a client's first request, at a snapshot number already issued, let the
      server run anything between the client's requests that leaves the table its
      name. The replies that reader threads give, each fed back token by token, with
      any positive page sizes, collect a prefix of the full read at that first moment,
      exactly as many rows as the page sizes add up to while there are that many; an
      empty page ends the scan with the whole, and more requests than rows suffice. */
  lemma PagedScanFromFirstReply(s: State, i: nat, x: string, tid: nat, snap: nat, rounds: seq<Round>)
    requires Inv(s) && TableId(s.l.db, x) == Some(tid) && snap <= s.l.db.lastSnapshot
    requires Replies(s, i, x, snap, NEWCOMER)
    requires PagingRuns(s, x, tid, snap, rounds, Answered(s, i, NEWCOMER))
    ensures QueryPartitions(s.l.db, x, snap).Some?
    ensures
      var whole := QueryPartitions(s.l.db, x, snap).value;
      var c := Paged(s, x, tid, snap, rounds, Answered(s, i, NEWCOMER));
      && c.collected <= whole
      && (c.ended ==> c.collected == whole)
      && |c.collected| == Least(c.asked, |whole|)
      && (1 + |rounds| > |whole| ==> c.ended)
  {
    FirstReply(s, i, x, snap);
    var whole := QueryPartitions(s.l.db, x, snap).value;
    var k := ReplyCollects(s, i, x, snap, whole, NEWCOMER, 0);
    var k' := PagedScanIsOneRead(s, x, tid, snap, rounds, whole, Answered(s, i, NEWCOMER), k);
    CollectedSoFar(Paged(s, x, tid, snap, rounds, Answered(s, i, NEWCOMER)), whole, k');
  }

  /** The lock under which the first reply was read settles its snapshot. */
  lemma FirstReply(s: State, i: nat, x: string, snap: nat)
    requires Inv(s) && snap <= s.l.db.lastSnapshot && Replies(s, i, x, snap, NEWCOMER)
    ensures Settled(s, x, snap) && QueryPartitions(s.l.db, x, snap).Some?
  {
    assert LocalOk(s.l, s.pcs[i]);
    SharedLockSettles(s, i, x, snap);
  }
}
