/** Linear history: when the commits of a table form one chain, and the one
    way in which they can fail to. */
module Forks {
  import opened Store
  import opened Chain
  import opened History
  import opened Catalog
  import opened Serving
  import opened Invariant
  import opened Reads
  import opened Solo

  // ---- What a fork is ----

  /** Unforked means three things at once: no two commits of the table name the
      same parent, the chain from current lists every committed snapshot, and the
      id comparison agrees with membership in the chain. */
  lemma UnforkedIsLinear(l: Ledger, x: string, ids: seq<nat>)
    requires Ok(l) && x in l.db.tables
    requires IsWalk(Parents(l.db.snapshots, l.db.tables[x].id), l.db.tables[x].current, ids)
    ensures
      var tid := l.db.tables[x].id;
      var parents := Parents(l.db.snapshots, tid);
      && (!Forked(l, tid) <==> forall m, n :: m in parents && n in parents && m != n ==> parents[m] != parents[n])
      && (!Forked(l, tid) <==> forall n :: n in parents ==> n in ids)
      && (!Forked(l, tid) <==> forall n :: n in parents && n <= l.db.tables[x].current ==> n in ids)
      && (forall n :: n in ids ==> n in parents)
      && (forall i, j :: 0 <= i < j < |ids| ==> ids[i] > ids[j])
  {
    var tid, current := l.db.tables[x].id, l.db.tables[x].current;
    var parents, root := Parents(l.db.snapshots, tid), Root(l.roots, tid);
    assert HistoryOk(l.db, l.roots, x);
    if current != 0 {
      ChainMembers(parents, root, current, current, ids);
      RootIsBase(parents, root, current, current);
    }
    if Forked(l, tid) {
      var lost :| lost in parents && lost < root;
      FirstHasNoParent(parents, root, current, lost);
      var first := Base(parents, lost);
      assert first != root && parents[first] == parents[root];
      assert lost !in ids;
    } else {
      forall m, n | m in parents && n in parents && m != n ensures parents[m] != parents[n] {
        UnforkedParents(parents, root, current, m, n);
      }
    }
  }

  lemma UnforkedParents(parents: map<nat, nat>, root: nat, current: nat, m: nat, n: nat)
    requires LinearFrom(parents, root, current) && (forall k :: k in parents ==> root <= k)
    requires m in parents && n in parents && m != n
    ensures parents[m] != parents[n]
  {
    if m < n {
      assert m <= parents[n];
      assert parents[m] < m || m == root;
    } else {
      assert n <= parents[m];
      assert parents[n] < n || n == root;
    }
  }

  /** For any two committed snapshots of any table: s is on the chain from p iff the
      source's id comparison says so and no history of the table began between them. */
  lemma AncestryIsChainMembership(l: Ledger, x: string, s: Snapshot, p: nat, ids: seq<nat>)
    requires Ok(l) && x in l.db.tables && OnChain(l, x, p, ids)
    requires s.id in Parents(l.db.snapshots, l.db.tables[x].id)
    ensures
      var parents := Parents(l.db.snapshots, l.db.tables[x].id);
      s.id in ids <==> s.IsAncestorOf(p) && !exists n :: n in parents && parents[n] == 0 && s.id < n <= p
    ensures !Forked(l, l.db.tables[x].id) ==> (s.id in ids <==> s.IsAncestorOf(p))
  {
    var tid := l.db.tables[x].id;
    var parents := Parents(l.db.snapshots, tid);
    assert HistoryOk(l.db, l.roots, x);
    ChainMembers(parents, Root(l.roots, tid), l.db.tables[x].current, p, ids);
    if !Forked(l, tid) {
      assert s.id >= Root(l.roots, tid);
    }
  }

  /** Walking any table's snapshots with build_snapshot_chain ends. */
  lemma ChainsEnd(l: Ledger, x: string, all: seq<Snapshot>, from: nat)
    requires Ok(l) && x in l.db.tables && Lists(all, Parents(l.db.snapshots, l.db.tables[x].id))
    ensures exists c :: IsChain(Index(all), from, c)
  {
    assert HistoryOk(l.db, l.roots, x);
    var c := OlderParentsEnd(Index(all), from);
  }

  /** The chain holds each of a table's snapshots once, newest first. */
  ghost predicate ListsAll(chain: seq<Snapshot>, parents: map<nat, nat>) {
    && (forall i, j :: 0 <= i < j < |chain| ==> chain[i].id > chain[j].id)
    && (forall i :: 0 <= i < |chain| ==> chain[i].id in parents && chain[i].parent == parents[chain[i].id])
    && (forall n :: n in parents ==> exists i :: 0 <= i < |chain| && chain[i].id == n)
  }

  /** build_snapshot_chain from current, on the snapshots of a table that has not
      forked, ends and returns the table's whole history. */
  method WholeChain(all: seq<Snapshot>, current: nat, ghost l: Ledger, ghost x: string) returns (chain: seq<Snapshot>)
    requires Ok(l) && x in l.db.tables && !Forked(l, l.db.tables[x].id) && current == l.db.tables[x].current
    requires Lists(all, Parents(l.db.snapshots, l.db.tables[x].id))
    ensures ListsAll(chain, Parents(l.db.snapshots, l.db.tables[x].id))
  {
    ChainsEnd(l, x, all, current);
    chain := BuildSnapshotChain(all, current);
    UnforkedWalks(l, x);
    ChainListsAll(all, Parents(l.db.snapshots, l.db.tables[x].id), current, chain);
  }

  /** Every walk from current over this table's parents is descending and complete. */
  ghost predicate WalksList(parents: map<nat, nat>, current: nat) {
    forall ids :: IsWalk(parents, current, ids) ==>
      && (forall i, j :: 0 <= i < j < |ids| ==> ids[i] > ids[j])
      && (forall n :: n in parents <==> n in ids)
  }

  lemma UnforkedWalks(l: Ledger, x: string)
    requires Ok(l) && x in l.db.tables && !Forked(l, l.db.tables[x].id)
    ensures WalksList(Parents(l.db.snapshots, l.db.tables[x].id), l.db.tables[x].current)
  {
    forall ids | IsWalk(Parents(l.db.snapshots, l.db.tables[x].id), l.db.tables[x].current, ids)
      ensures forall i, j :: 0 <= i < j < |ids| ==> ids[i] > ids[j]
      ensures forall n :: n in Parents(l.db.snapshots, l.db.tables[x].id) <==> n in ids
    {
      UnforkedIsLinear(l, x, ids);
    }
  }

  lemma ChainListsAll(all: seq<Snapshot>, parents: map<nat, nat>, current: nat, chain: seq<Snapshot>)
    requires Lists(all, parents) && IsChain(Index(all), current, chain) && WalksList(parents, current)
    ensures ListsAll(chain, parents)
  {
    var ids := seq(|chain|, i requires 0 <= i < |chain| => chain[i].id);
    ChainIsWalk(all, parents, current, chain);
    ChainIsIndexed(Index(all), current, chain);
    assert forall i :: 0 <= i < |chain| ==> ids[i] == chain[i].id;
    forall n | n in parents ensures exists i :: 0 <= i < |chain| && chain[i].id == n {
      var i :| 0 <= i < |ids| && ids[i] == n;
      assert chain[i].id == n;
    }
  }

  lemma {:induction false} ChainIsIndexed(index: map<nat, Snapshot>, from: nat, chain: seq<Snapshot>)
    requires IsChain(index, from, chain) && forall n :: n in index ==> index[n].id == n
    ensures forall i :: 0 <= i < |chain| ==> chain[i].id in index && index[chain[i].id] == chain[i]
    decreases |chain|
  {
    if !Stops(index, from) {
      ChainIsIndexed(index, index[from].parent, chain[1..]);
    }
  }

  // ---- How a fork comes about ----

  /** A commit forks its table exactly when it names parent 0 although the table
      has a current snapshot; a forked table stays forked. */
  lemma CommitForks(l: Ledger, x: string, tid: nat, n: nat, base: nat, req: Request, added: Rows)
    requires Ok(l) && Writing(l, x, tid, n, base, req, added)
    ensures Forked(Published(l, x, n, req, added), tid) <==>
            Forked(l, tid) || (req.parent == 0 && l.db.tables[x].current != 0)
  {
    var l', current := Published(l, x, n, req, added), l.db.tables[x].current;
    var parents, parents' := Parents(l.db.snapshots, tid), Parents(l'.db.snapshots, tid);
    assert HistoryOk(l.db, l.roots, x);
    ParentsGrow(l.db.snapshots, n, l'.db.snapshots[n], tid);
    if req.parent == 0 && current != 0 {
      assert current in parents' && current < Root(l'.roots, tid);
    }
    if Forked(l, tid) {
      var m :| m in parents && m < Root(l.roots, tid);
      assert m in parents' && m < Root(l'.roots, tid);
    }
  }

  lemma OtherTablesUnforked(l: Ledger, x: string, tid: nat, n: nat, base: nat, req: Request, added: Rows, other: nat)
    requires Shape(l) && Writing(l, x, tid, n, base, req, added) && other != tid
    ensures Forked(Published(l, x, n, req, added), other) <==> Forked(l, other)
  {
    ParentsGrow(l.db.snapshots, n, Published(l, x, n, req, added).db.snapshots[n], other);
  }

  lemma EffectForks(l: Ledger, op: Ddl, x: string)
    requires Shape(l) && Effect(l, op).Some? && x in Effect(l, op).value.db.tables
    ensures
      var l' := Effect(l, op).value;
      Forked(l', l'.db.tables[x].id) ==>
        Formerly(l, op, x) in l.db.tables && Forked(l, l.db.tables[Formerly(l, op, x)].id)
  {
    EffectHistory(l, op, x);
  }

  ghost predicate NoForks(l: Ledger) {
    forall x :: x in l.db.tables ==> !Forked(l, l.db.tables[x].id)
  }

  /** Every open commit read the table's pointer successfully. */
  ghost predicate Trusting(pcs: seq<Pc>) {
    forall i :: 0 <= i < |pcs| && (pcs[i].CommitOpen? || pcs[i].CommitWrite?) ==> pcs[i].trusted
  }

  /** The step is not a failed read of a commit's pointer. */
  ghost predicate Reliable(s: State, a: Action)
    requires Enabled(s, a)
  {
    a.Go? && s.pcs[a.i].CommitCheck? ==> a.ok
  }

  lemma StepTrusting(s: State, a: Action)
    requires Enabled(s, a) && Reliable(s, a) && Trusting(s.pcs)
    ensures Trusting(Next(s, a).pcs)
  {
    OthersStay(s, a);
    if a.Go? && !s.pcs[a.i].Gated() {
      WorkTrusts(s, a.i, a.ok, a.gap);
    }
  }

  lemma ReadTrusts(s: State, i: nat, ok: bool)
    requires i < |s.pcs| && MayWork(s, i) && (s.pcs[i].ReadLock? || s.pcs[i].Shared() != {})
    ensures var pcs' := ReadNext(s, i, ok).pcs; i < |pcs'| && !pcs'[i].CommitOpen? && !pcs'[i].CommitWrite?
  {
  }

  lemma WorkTrusts(s: State, i: nat, ok: bool, gap: nat)
    requires i < |s.pcs| && MayWork(s, i) && (s.pcs[i].CommitCheck? ==> ok)
    requires s.pcs[i].CommitOpen? || s.pcs[i].CommitWrite? ==> s.pcs[i].trusted
    ensures
      var pcs' := ThreadNext(s, i, ok, gap).pcs;
      i < |pcs'| && (pcs'[i].CommitOpen? || pcs'[i].CommitWrite? ==> pcs'[i].trusted)
  {
    if s.pcs[i].ReadLock? || s.pcs[i].Shared() != {} {
      ReadTrusts(s, i, ok);
    }
  }

  lemma CommitNoForks(l: Ledger, w: Pc)
    requires Ok(l) && w.CommitWrite? && LocalOk(l, w) && w.trusted && NoForks(l)
    ensures NoForks(Published(l, w.t, w.n, w.req, w.added))
  {
    var l' := Published(l, w.t, w.n, w.req, w.added);
    CommitForks(l, w.t, w.tid, w.n, w.base, w.req, w.added);
    forall x | x in l'.db.tables ensures !Forked(l', l'.db.tables[x].id) {
      if x != w.t {
        OtherTablesUnforked(l, w.t, w.tid, w.n, w.base, w.req, w.added, l.db.tables[x].id);
      }
    }
  }

  lemma EffectNoForks(l: Ledger, op: Ddl)
    requires Shape(l) && Effect(l, op).Some? && NoForks(l)
    ensures NoForks(Effect(l, op).value)
  {
    var l' := Effect(l, op).value;
    forall x | x in l'.db.tables ensures !Forked(l', l'.db.tables[x].id) {
      EffectForks(l, op, x);
    }
  }

  lemma PublishingNoForks(s: State, i: nat, gap: nat)
    requires Inv(s) && i < |s.pcs| && Publishes(s, i, true) && s.pcs[i].trusted && NoForks(s.l)
    ensures Enabled(s, Go(i, true, gap)) && NoForks(Next(s, Go(i, true, gap)).l)
  {
    assert LocalOk(s.l, s.pcs[i]);
    PublishingNext(s, i, gap);
    CommitNoForks(s.l, s.pcs[i]);
  }

  lemma DdlNoForks(s: State, i: nat, ok: bool, gap: nat)
    requires Inv(s) && i < |s.pcs| && s.pcs[i].DdlRun? && NoForks(s.l)
    ensures Enabled(s, Go(i, ok, gap)) && NoForks(Next(s, Go(i, ok, gap)).l)
  {
    var l := Drawn(s.l, gap, 0, 0);
    DdlRunNext(s, i, ok, gap);
    DrawnOk(s.l, gap, 0, 0);
    DrawnNoForks(s.l, gap, 0, 0);
    if ok && Effect(l, s.pcs[i].op).Some? {
      EffectNoForks(l, s.pcs[i].op);
    }
  }

  lemma DrawnNoForks(l: Ledger, tables: nat, snapshots: nat, partitions: nat)
    requires NoForks(l)
    ensures NoForks(Drawn(l, tables, snapshots, partitions))
  {
    var l' := Drawn(l, tables, snapshots, partitions);
    forall x | x in l'.db.tables ensures !Forked(l', l'.db.tables[x].id) {
      assert !Forked(l, l.db.tables[x].id);
    }
  }

  lemma StepNoForks(s: State, a: Action)
    requires Inv(s) && Enabled(s, a) && Trusting(s.pcs) && NoForks(s.l)
    ensures NoForks(Next(s, a).l)
  {
    if !Writes(s, a) {
      var snapshots, partitions := QuietNext(s, a);
      DrawnNoForks(s.l, 0, snapshots, partitions);
    } else if s.pcs[a.i].DdlRun? {
      DdlNoForks(s, a.i, a.ok, a.gap);
    } else {
      PublishingNoForks(s, a.i, a.gap);
    }
  }

  /** Every step of the run is reliable. */
  ghost predicate ReliableRun(s: State, acts: seq<Action>)
    requires Runs(s, acts)
    decreases |acts|
  {
    acts == [] || (Reliable(s, acts[0]) && ReliableRun(Next(s, acts[0]), acts[1..]))
  }

  /** In a run in which no commit's read of the current snapshot fails, no table
      ever forks, under any interleaving of any number of commits. */
  lemma {:induction false} ReliableRunsDoNotFork(s: State, acts: seq<Action>)
    requires Inv(s) && Trusting(s.pcs) && NoForks(s.l)
    requires Runs(s, acts) && ReliableRun(s, acts)
    ensures NoForks(After(s, acts).l)
    decreases |acts|
  {
    if acts != [] {
      StepInv(s, acts[0]);
      StepTrusting(s, acts[0]);
      StepNoForks(s, acts[0]);
      ReliableRunsDoNotFork(Next(s, acts[0]), acts[1..]);
    }
  }

  /** One failed read of the pointer is enough to fork: the source takes it for a
      table without snapshots, so a commit that names parent 0 passes the check and is
      published over the table's current snapshot. The run can start in any state with
      an idle thread, a connection to take and nobody at the table or the registry. */
  lemma FailedReadForks(s: State, i: nat, x: string, req: Request) returns (acts: seq<Action>)
    requires Inv(s) && i < |s.pcs| && s.pcs[i].Idle? && s.registry.None? && FreeForExclusive(s, x) && s.free > 0
    requires IsLive(s.l.db, x) && s.l.db.tables[x].current != 0 && req.parent == 0
    ensures Runs(s, acts) && Forked(After(s, acts).l, s.l.db.tables[x].id)
    ensures After(s, acts).pcs == s.pcs[i := CommitClear(x, s.l.db.lastSnapshot + 1)]
  {
    var n, drawn, added;
    acts, n, drawn, added := CommitGoesThrough(s, i, x, req, false);
    WentThroughForks(s, i, x, req, After(s, acts), n, drawn, added);
  }

  lemma WentThroughForks(s: State, i: nat, x: string, req: Request, s': State, n: nat, drawn: nat,
      added: seq<PartitionRow>)
    requires Ok(s.l) && i < |s.pcs| && IsLive(s.l.db, x) && s.l.db.tables[x].current != 0 && req.parent == 0
    requires WentThrough(s, i, x, req, s', n, drawn, added)
    ensures Forked(s'.l, s.l.db.tables[x].id)
  {
    DrawnOk(s.l, 0, 1, drawn);
    CommitForks(Drawn(s.l, 0, 1, drawn), x, s.l.db.tables[x].id, n, s.l.db.lastPartition, req, added);
  }
}
