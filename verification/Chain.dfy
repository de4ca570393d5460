/** Snapshot chains: following parent ids from one snapshot, and when that
    walk lists a table's whole history. */
module Chain {
  import opened Store
  import opened Replay

  datatype Snapshot = Snapshot(id: nat, parent: nat, tableId: nat, operation: string, added: int, deleted: int)
  {
    /** The comparison the source uses for ancestry. */
    predicate IsAncestorOf(otherParent: nat) {
      id <= otherParent
    }
  }

  /** Later entries of the vector win, as with assignment into an unordered_map. */
  function Index(all: seq<Snapshot>): map<nat, Snapshot> {
    if all == [] then map[]
    else Index(all[..|all| - 1])[all[|all| - 1].id := all[|all| - 1]]
  }

  predicate Stops<T>(index: map<nat, T>, id: nat) {
    id == 0 || id !in index
  }

  /** chain lists the snapshots met by following parents from an id until 0 or an unknown id. */
  ghost predicate IsChain(index: map<nat, Snapshot>, from: nat, chain: seq<Snapshot>)
    decreases |chain|
  {
    if Stops(index, from) then chain == []
    else chain != [] && chain[0] == index[from] && IsChain(index, index[from].parent, chain[1..])
  }

  /** The walk ends exactly when some finite chain exists; then it returns that one, the only one there is. */
  method BuildSnapshotChain(all: seq<Snapshot>, from: nat) returns (chain: seq<Snapshot>)
    requires exists c :: IsChain(Index(all), from, c)
    ensures IsChain(Index(all), from, chain)
    ensures forall c :: IsChain(Index(all), from, c) ==> c == chain
    ensures FollowsParents(all, from, chain)
  {
    var index: map<nat, Snapshot> := map[];
    for i := 0 to |all|
      invariant index == Index(all[..i])
    {
      index := index[all[i].id := all[i]];
      assert all[..i + 1][..i] == all[..i];
    }
    assert all[..|all|] == all;
    ghost var c :| IsChain(index, from, c);
    chain := [];
    var current := from;
    while current != 0
      invariant |chain| <= |c| && chain == c[..|chain|]
      invariant IsChain(index, current, c[|chain|..])
      invariant current == 0 ==> |chain| == |c|
      decreases |c| - |chain|
    {
      if current !in index {
        break;
      }
      assert c[|chain|..][1..] == c[|chain| + 1..];
      chain := chain + [index[current]];
      current := index[current].parent;
    }
    assert c[..|c|] == c;
    ChainFollows(all, from, chain);
    forall other | IsChain(index, from, other) ensures other == chain {
      ChainIsUnique(index, from, other, chain);
    }
  }

  /** s is the last snapshot of the vector with its id. */
  ghost predicate LastListed(all: seq<Snapshot>, s: Snapshot) {
    exists j :: 0 <= j < |all| && all[j] == s && forall k :: j < k < |all| ==> all[k].id != s.id
  }

  /** The chain begins at from, goes on from parent to parent, takes the last listed
      snapshot of each id, and ends at a parent of 0 or one that is not listed. */
  ghost predicate FollowsParents(all: seq<Snapshot>, from: nat, chain: seq<Snapshot>) {
    && (forall i :: 0 <= i < |chain| ==> LastListed(all, chain[i]) && chain[i].id != 0)
    && (chain != [] ==> chain[0].id == from)
    && (forall i :: 0 <= i < |chain| - 1 ==> chain[i + 1].id == chain[i].parent)
    && var end := if chain == [] then from else chain[|chain| - 1].parent;
    && (end == 0 || forall j :: 0 <= j < |all| ==> all[j].id != end)
  }

  lemma {:induction false} IndexIsLast(all: seq<Snapshot>, id: nat)
    ensures id in Index(all) <==> exists j :: 0 <= j < |all| && all[j].id == id
    ensures id in Index(all) ==> Index(all)[id].id == id && LastListed(all, Index(all)[id])
  {
    if all != [] {
      var last := |all| - 1;
      IndexIsLast(all[..last], id);
      if all[last].id == id {
        assert LastListed(all, all[last]);
      } else if id in Index(all[..last]) {
        var s := Index(all[..last])[id];
        var j :| 0 <= j < last && all[..last][j] == s && forall k :: j < k < last ==> all[..last][k].id != id;
        assert all[j] == s && forall k :: j < k < |all| ==> all[k].id != id;
      }
    }
  }

  lemma {:induction false} ChainFollows(all: seq<Snapshot>, from: nat, chain: seq<Snapshot>)
    requires IsChain(Index(all), from, chain)
    ensures FollowsParents(all, from, chain)
    decreases |chain|
  {
    IndexIsLast(all, from);
    if chain != [] {
      var rest := chain[1..];
      ChainFollows(all, Index(all)[from].parent, rest);
      assert chain == [chain[0]] + rest;
      forall i | 0 <= i < |chain| ensures LastListed(all, chain[i]) && chain[i].id != 0 {
        if i > 0 {
          assert chain[i] == rest[i - 1];
        }
      }
      forall i | 0 <= i < |chain| - 1 ensures chain[i + 1].id == chain[i].parent {
        if i > 0 {
          assert chain[i] == rest[i - 1] && chain[i + 1] == rest[i];
        }
      }
    }
  }

  lemma {:induction false} ChainIsUnique(index: map<nat, Snapshot>, from: nat, a: seq<Snapshot>, b: seq<Snapshot>)
    requires IsChain(index, from, a) && IsChain(index, from, b)
    ensures a == b
    decreases |a|
  {
    if !Stops(index, from) {
      ChainIsUnique(index, index[from].parent, a[1..], b[1..]);
    }
  }

  /** Parents older than their children make every walk finite. */
  lemma {:induction false} OlderParentsEnd(index: map<nat, Snapshot>, from: nat) returns (chain: seq<Snapshot>)
    requires forall n :: n in index ==> index[n].parent < n
    ensures IsChain(index, from, chain)
  {
    if Stops(index, from) {
      chain := [];
    } else {
      var rest := OlderParentsEnd(index, index[from].parent);
      chain := [index[from]] + rest;
      assert chain[1..] == rest;
    }
  }

  /** Without that, the walk need not end: a snapshot that is its own parent has no chain. */
  lemma {:induction false} SelfParentNeverEnds(index: map<nat, Snapshot>, from: nat, chain: seq<Snapshot>)
    requires from != 0 && from in index && index[from].parent == from
    ensures !IsChain(index, from, chain)
  {
    if chain != [] {
      SelfParentNeverEnds(index, from, chain[1..]);
    }
  }

  // ---- Chains of a table's snapshots ----

  /** The snapshots of one table, each with its parent. */
  function Parents(snapshots: map<nat, SnapshotRow>, tid: nat): map<nat, nat> {
    map n | n in snapshots && snapshots[n].tableId == tid :: snapshots[n].parent
  }

  /** A history of one table: a snapshot's parent, if it has one, is the snapshot
      just before it; root is the youngest without a parent, and current the youngest. */
  ghost predicate LinearFrom(parents: map<nat, nat>, root: nat, current: nat) {
    && (current == 0 ==> parents == map[])
    && (current != 0 ==> current in parents && root in parents && 0 < root <= current && parents[root] == 0)
    && (forall n :: n in parents ==> 0 < n <= current)
    && (forall n :: n in parents ==> parents[n] == 0 || (parents[n] in parents && parents[n] < n))
    && (forall n :: n in parents && n > root ==> parents[n] != 0)
    && (forall n, m :: n in parents && m in parents && parents[n] != 0 && m < n ==> m <= parents[n])
  }

  /** The youngest snapshot without a parent at or below snap; 0 if there is none. */
  function Base(parents: map<nat, nat>, snap: nat): nat {
    if snap == 0 || (snap in parents && parents[snap] == 0) then snap else Base(parents, snap - 1)
  }

  lemma {:induction false} BaseIsYoungest(parents: map<nat, nat>, snap: nat)
    ensures Base(parents, snap) <= snap
    ensures Base(parents, snap) == 0 || (Base(parents, snap) in parents && parents[Base(parents, snap)] == 0)
    ensures forall n :: Base(parents, snap) < n <= snap && n in parents ==> parents[n] != 0
  {
    if snap != 0 && !(snap in parents && parents[snap] == 0) {
      BaseIsYoungest(parents, snap - 1);
    }
  }

  /** The walk over ids only. */
  ghost predicate IsWalk(parents: map<nat, nat>, from: nat, ids: seq<nat>)
    decreases |ids|
  {
    if Stops(parents, from) then ids == []
    else ids != [] && ids[0] == from && IsWalk(parents, parents[from], ids[1..])
  }

  /** A chain: strictly descending, and holding exactly the table's snapshots from low up to from. */
  ghost predicate ListsFrom(parents: map<nat, nat>, low: nat, from: nat, ids: seq<nat>) {
    && IsWalk(parents, from, ids)
    && (forall i, j :: 0 <= i < j < |ids| ==> ids[i] > ids[j])
    && (forall n :: n in ids <==> n in parents && low <= n <= from)
  }

  lemma {:induction false} BaseSkips(parents: map<nat, nat>, low: nat, high: nat)
    requires low <= high && forall n :: low < n <= high && n in parents ==> parents[n] != 0
    ensures Base(parents, high) == Base(parents, low)
    decreases high
  {
    if low < high {
      BaseSkips(parents, low, high - 1);
    }
  }

  lemma {:induction false} FirstHasNoParent(parents: map<nat, nat>, root: nat, current: nat, n: nat)
    requires LinearFrom(parents, root, current) && n in parents
    ensures 0 < Base(parents, n) <= n && Base(parents, n) in parents && parents[Base(parents, n)] == 0
    decreases n
  {
    BaseIsYoungest(parents, n);
    if parents[n] != 0 {
      FirstHasNoParent(parents, root, current, parents[n]);
      BaseIsYoungest(parents, parents[n]);
    }
  }

  /** The chain from any snapshot of a table lists exactly the snapshots from its base up to it. */
  lemma {:induction false} WalkFromBase(parents: map<nat, nat>, root: nat, current: nat, from: nat)
    returns (ids: seq<nat>)
    requires LinearFrom(parents, root, current) && from in parents
    ensures ListsFrom(parents, Base(parents, from), from, ids)
    decreases from
  {
    LinearStep(parents, root, current, from);
    if parents[from] == 0 {
      ids := [from];
      WalkOfOne(parents, from);
    } else {
      var rest := WalkFromBase(parents, root, current, parents[from]);
      ids := [from] + rest;
      assert Base(parents, from) == Base(parents, parents[from]) <= from by {
        BaseSkips(parents, parents[from], from);
        BaseIsYoungest(parents, parents[from]);
      }
      WalkGrows(parents, Base(parents, from), from, rest);
    }
  }

  lemma LinearStep(parents: map<nat, nat>, root: nat, current: nat, from: nat)
    requires LinearFrom(parents, root, current) && from in parents
    ensures from > 0
    ensures parents[from] != 0 ==>
      && parents[from] in parents && parents[from] < from
      && forall m :: m in parents && m < from ==> m <= parents[from]
  {
  }

  lemma WalkOfOne(parents: map<nat, nat>, from: nat)
    requires from in parents && from > 0 && parents[from] == 0
    ensures ListsFrom(parents, Base(parents, from), from, [from])
  {
    assert IsWalk(parents, 0, [from][1..]);
  }

  lemma WalkGrows(parents: map<nat, nat>, low: nat, from: nat, rest: seq<nat>)
    requires from in parents && 0 != parents[from] < from && low <= from
    requires forall m :: m in parents && m < from ==> m <= parents[from]
    requires !Stops(parents, from) && ListsFrom(parents, low, parents[from], rest)
    ensures ListsFrom(parents, low, from, [from] + rest)
  {
    var ids := [from] + rest;
    assert ids[1..] == rest;
    forall i, j | 0 <= i < j < |ids| ensures ids[i] > ids[j] {
      assert ids[j] == rest[j - 1] && rest[j - 1] in rest;
    }
    forall n ensures n in ids <==> n in parents && low <= n <= from {
      assert n in ids <==> n == from || n in rest;
    }
  }

  /** So every chain of a table is descending and complete down to its base, and a
      snapshot s is on the chain from p iff it is at most p and no history began
      between them. */
  lemma ChainMembers(parents: map<nat, nat>, root: nat, current: nat, p: nat, ids: seq<nat>)
    requires LinearFrom(parents, root, current) && p in parents && IsWalk(parents, p, ids)
    ensures ListsFrom(parents, Base(parents, p), p, ids)
    ensures forall s :: s in parents ==>
      (s in ids <==> s <= p && !exists n :: n in parents && parents[n] == 0 && s < n <= p)
  {
    var w := WalkFromBase(parents, root, current, p);
    WalkIsUnique(parents, p, ids, w);
    FirstHasNoParent(parents, root, current, p);
    BaseIsYoungest(parents, p);
  }

  /** At or above the root, the base is the root. */
  lemma RootIsBase(parents: map<nat, nat>, root: nat, current: nat, from: nat)
    requires LinearFrom(parents, root, current) && from in parents && root <= from
    ensures Base(parents, from) == root
  {
    BaseIsYoungest(parents, from);
  }

  lemma {:induction false} WalkIsUnique(parents: map<nat, nat>, from: nat, a: seq<nat>, b: seq<nat>)
    requires IsWalk(parents, from, a) && IsWalk(parents, from, b)
    ensures a == b
    decreases |a|
  {
    if !Stops(parents, from) {
      WalkIsUnique(parents, parents[from], a[1..], b[1..]);
    }
  }

  /** The vector lists the table's snapshots. */
  ghost predicate Lists(all: seq<Snapshot>, parents: map<nat, nat>) {
    && Index(all).Keys == parents.Keys
    && forall n :: n in Index(all) ==> Index(all)[n].id == n && Index(all)[n].parent == parents[n]
  }

  /** What build_snapshot_chain returns on a table's snapshots is the walk over its parents. */
  lemma {:induction false} ChainIsWalk(all: seq<Snapshot>, parents: map<nat, nat>, from: nat, chain: seq<Snapshot>)
    requires Lists(all, parents) && IsChain(Index(all), from, chain)
    ensures IsWalk(parents, from, seq(|chain|, i requires 0 <= i < |chain| => chain[i].id))
    decreases |chain|
  {
    if !Stops(parents, from) {
      ChainIsWalk(all, parents, parents[from], chain[1..]);
      var ids := seq(|chain|, i requires 0 <= i < |chain| => chain[i].id);
      assert ids[1..] == seq(|chain[1..]|, i requires 0 <= i < |chain[1..]| => chain[1..][i].id);
    }
  }

  /** The commits named by a chain, newest first, replayed oldest first onto some rows. */
  function ReplayOnto(log: map<nat, Delta>, base: seq<PartitionRow>, ids: seq<nat>): seq<PartitionRow>
    requires forall n :: n in ids ==> n in log
  {
    if ids == [] then base else Apply(ReplayOnto(log, base, ids[1..]), log[ids[0]])
  }

  /** All keys that the commits of a chain delete. */
  function DeletedBy(log: map<nat, Delta>, ids: seq<nat>): set<string>
    requires forall n :: n in ids ==> n in log
  {
    if ids == [] then {} else DeletedBy(log, ids[1..]) + log[ids[0]].deleted
  }

  /** The chain holds exactly the table's commits from low to s. */
  ghost predicate Covers(log: map<nat, Delta>, tid: nat, ids: seq<nat>, low: nat, s: nat) {
    && (forall i, j :: 0 <= i < j < |ids| ==> ids[i] > ids[j])
    && (forall n :: n in ids <==> n in log && log[n].tableId == tid && low <= n <= s)
  }

  lemma CoversRest(log: map<nat, Delta>, tid: nat, ids: seq<nat>, low: nat, s: nat)
    requires Covers(log, tid, ids, low, s) && ids != [] && low > 0
    ensures low <= ids[0] <= s && ids[0] in log && log[ids[0]].tableId == tid
    ensures Covers(log, tid, ids[1..], low, ids[0] - 1)
    ensures forall n :: ids[0] < n <= s && n in log ==> log[n].tableId != tid
  {
    var top := ids[0];
    assert top in ids;
    forall n ensures n in ids[1..] <==> n in ids && n < top {
      if n in ids && n < top {
        var i :| 0 <= i < |ids| && ids[i] == n;
        assert ids[1..][i - 1] == n;
      }
    }
    forall n | n in ids ensures n <= top {
      var i :| 0 <= i < |ids| && ids[i] == n;
    }
  }

  /** Replaying such a chain onto what was there before low is replaying the log. */
  lemma {:induction false} ReplayOntoIsReplay(log: map<nat, Delta>, tid: nat, ids: seq<nat>, low: nat, s: nat)
    requires Covers(log, tid, ids, low, s) && 0 < low <= s + 1
    ensures ReplayOnto(log, Replayed(log, tid, low - 1), ids) == Replayed(log, tid, s)
    decreases |ids|
  {
    if ids == [] {
      ReplayedFurther(log, tid, low - 1, s);
    } else {
      CoversRest(log, tid, ids, low, s);
      ReplayOntoIsReplay(log, tid, ids[1..], low, ids[0] - 1);
      OneMoreReplayed(log, Replayed(log, tid, low - 1), tid, ids, s);
    }
  }

  lemma OneMoreReplayed(log: map<nat, Delta>, base: seq<PartitionRow>, tid: nat, ids: seq<nat>, s: nat)
    requires ids != [] && forall n :: n in ids ==> n in log
    requires 0 < ids[0] <= s && log[ids[0]].tableId == tid
    requires forall n :: ids[0] < n <= s && n in log ==> log[n].tableId != tid
    requires ReplayOnto(log, base, ids[1..]) == Replayed(log, tid, ids[0] - 1)
    ensures ReplayOnto(log, base, ids) == Replayed(log, tid, s)
  {
    TopReplayed(log, tid, ids[0], s);
  }

  /** The youngest commit at or below s is the last one replayed. */
  lemma TopReplayed(log: map<nat, Delta>, tid: nat, top: nat, s: nat)
    requires 0 < top <= s && top in log && log[top].tableId == tid
    requires forall n :: top < n <= s && n in log ==> log[n].tableId != tid
    ensures Replayed(log, tid, s) == Apply(Replayed(log, tid, top - 1), log[top])
  {
    ReplayedFurther(log, tid, top, s);
  }

  /** Of the rows replayed onto, those stay, in front, that no commit of the chain deletes. */
  lemma {:induction false} ReplayOntoKeeps(log: map<nat, Delta>, base: seq<PartitionRow>, ids: seq<nat>)
    requires forall n :: n in ids ==> n in log
    ensures ReplayOnto(log, base, ids) == DropKeys(base, DeletedBy(log, ids)) + ReplayOnto(log, [], ids)
  {
    if ids == [] {
      KeptKeys(base, {});
    } else {
      ReplayOntoKeeps(log, base, ids[1..]);
      var d, keys, own := log[ids[0]], DeletedBy(log, ids[1..]), ReplayOnto(log, [], ids[1..]);
      AppliesBehind(DropKeys(base, keys), own, d);
      DropKeysTwice(base, keys, d.deleted);
    }
  }

  /** So the whole replay is the chain's own, behind the earlier rows that the chain
      never deletes, and the two agree iff it deletes them all. */
  lemma ReplayBehindLost(log: map<nat, Delta>, tid: nat, ids: seq<nat>, low: nat, s: nat)
    requires Covers(log, tid, ids, low, s) && 0 < low <= s + 1
    ensures
      var lost, keys := Replayed(log, tid, low - 1), DeletedBy(log, ids);
      && Replayed(log, tid, s) == DropKeys(lost, keys) + ReplayOnto(log, [], ids)
      && (Replayed(log, tid, s) == ReplayOnto(log, [], ids) <==>
          forall i :: 0 <= i < |lost| ==> lost[i].data.key in keys)
  {
    var lost := Replayed(log, tid, low - 1);
    ReplayOntoIsReplay(log, tid, ids, low, s);
    ReplayOntoKeeps(log, lost, ids);
    KeptKeys(lost, DeletedBy(log, ids));
  }

  lemma AppliesBehind(a: seq<PartitionRow>, b: seq<PartitionRow>, d: Delta)
    ensures Apply(a + b, d) == DropKeys(a, d.deleted) + Apply(b, d)
  {
    assert (a + b) + d.added == a + (b + d.added);
    DropKeysConcat(a, b + d.added, d.deleted);
  }
}
