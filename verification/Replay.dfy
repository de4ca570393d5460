/** The row-level heart of the multi-version store: reading tombstones at a
    snapshot is replaying the commit log up to it. */
module Replay {
  import opened Store

  /** The commits of a table with id at most s, replayed in id order from empty. */
  function Replayed(log: map<nat, Delta>, tableId: nat, s: nat): seq<PartitionRow> {
    var before := if s == 0 then [] else Replayed(log, tableId, s - 1);
    if s in log && log[s].tableId == tableId then Apply(before, log[s]) else before
  }

  /** Reading agrees with replaying, for every table and every snapshot number. */
  ghost predicate Refines(parts: map<nat, Tuple>, last: nat, log: map<nat, Delta>) {
    forall tid: nat, s: nat :: Scan(parts, tid, s, 0, last) == Replayed(log, tid, s)
  }

  // ---- Scans ----

  /** p read at s and q read at r agree on one id. */
  ghost predicate SameAt(p: map<nat, Tuple>, s: nat, q: map<nat, Tuple>, r: nat, tid: nat, id: nat) {
    && (Shows(p, tid, s, id) <==> Shows(q, tid, r, id))
    && (Shows(p, tid, s, id) && Shows(q, tid, r, id) ==> p[id].row == q[id].row)
  }

  /** q read at r shows what p read at s shows, less the rows with these keys. */
  ghost predicate DroppedAt(p: map<nat, Tuple>, s: nat, q: map<nat, Tuple>, r: nat, keys: set<string>, tid: nat,
      id: nat)
  {
    && (Shows(q, tid, r, id) <==> Shows(p, tid, s, id) && p[id].row.data.key !in keys)
    && (Shows(p, tid, s, id) && Shows(q, tid, r, id) ==> p[id].row == q[id].row)
  }

  lemma {:induction false} ScanSame(p: map<nat, Tuple>, q: map<nat, Tuple>, tid: nat, s: nat, r: nat, lo: nat, hi: nat)
    requires forall id: nat :: lo < id <= hi ==> SameAt(p, s, q, r, tid, id)
    ensures Scan(p, tid, s, lo, hi) == Scan(q, tid, r, lo, hi)
    decreases hi
  {
    if hi > lo {
      assert SameAt(p, s, q, r, tid, hi);
      ScanSame(p, q, tid, s, r, lo, hi - 1);
    }
  }

  lemma {:induction false} ScanSplit(p: map<nat, Tuple>, tid: nat, s: nat, lo: nat, mid: nat, hi: nat)
    requires lo <= mid <= hi
    ensures Scan(p, tid, s, lo, hi) == Scan(p, tid, s, lo, mid) + Scan(p, tid, s, mid, hi)
    decreases hi
  {
    if mid < hi {
      ScanSplit(p, tid, s, lo, mid, hi - 1);
    }
  }

  lemma {:induction false} ScanNothing(p: map<nat, Tuple>, tid: nat, s: nat, lo: nat, hi: nat)
    requires forall id: nat :: lo < id <= hi ==> !Shows(p, tid, s, id)
    ensures Scan(p, tid, s, lo, hi) == []
    decreases hi
  {
    if lo < hi {
      ScanNothing(p, tid, s, lo, hi - 1);
    }
  }

  /** Ids the sequence has handed out but that hold no row do not change a scan. */
  lemma ScanFurther(p: map<nat, Tuple>, tid: nat, s: nat, last: nat, last': nat)
    requires last <= last' && forall id :: id in p ==> id <= last
    ensures Scan(p, tid, s, 0, last') == Scan(p, tid, s, 0, last)
  {
    ScanSplit(p, tid, s, 0, last, last');
    ScanNothing(p, tid, s, last, last');
  }

  lemma {:induction false} ScanDropsKeys(p: map<nat, Tuple>, q: map<nat, Tuple>, keys: set<string>, tid: nat, s: nat,
      r: nat, lo: nat, hi: nat)
    requires forall id: nat :: lo < id <= hi ==> DroppedAt(p, s, q, r, keys, tid, id)
    ensures Scan(q, tid, r, lo, hi) == DropKeys(Scan(p, tid, s, lo, hi), keys)
    decreases hi
  {
    if lo < hi {
      assert DroppedAt(p, s, q, r, keys, tid, hi);
      ScanDropsKeys(p, q, keys, tid, s, r, lo, hi - 1);
      var row := Scan(p, tid, s, lo, hi - 1);
      if Shows(p, tid, s, hi) {
        assert (row + [p[hi].row])[..|row|] == row;
      } else {
        assert row + [] == row;
      }
    }
  }

  /** Rows listed by ascending id, all above base and at most last. */
  ghost predicate Ascending(rows: seq<PartitionRow>, base: nat, last: nat) {
    && (forall i :: 0 <= i < |rows| ==> base < rows[i].id <= last)
    && (forall i, j :: 0 <= i < j < |rows| ==> rows[i].id < rows[j].id)
  }

  /** A scan lists ascending ids between its bounds, each with the row that is stored under it. */
  lemma {:induction false} ScanIds(p: map<nat, Tuple>, tid: nat, s: nat, lo: nat, hi: nat)
    requires forall id :: id in p ==> p[id].row.id == id
    ensures
      var rows := Scan(p, tid, s, lo, hi);
      && Ascending(rows, lo, hi)
      && forall i :: 0 <= i < |rows| ==> Shows(p, tid, s, rows[i].id) && p[rows[i].id].row == rows[i]
    decreases hi
  {
    if lo < hi {
      ScanIds(p, tid, s, lo, hi - 1);
    }
  }

  /** A scan misses no visible row between its bounds. */
  lemma {:induction false} ScanMisses(p: map<nat, Tuple>, tid: nat, s: nat, lo: nat, hi: nat, id: nat)
    requires lo < id <= hi && Shows(p, tid, s, id)
    ensures p[id].row in Scan(p, tid, s, lo, hi)
    decreases hi
  {
    if id < hi {
      ScanMisses(p, tid, s, lo, hi - 1, id);
    }
  }

  /** What inserting rows leaves at one id. */
  lemma {:induction false} WithRowsAt(parts: map<nat, Tuple>, rows: seq<PartitionRow>, id: nat)
    requires forall i, j :: 0 <= i < j < |rows| ==> rows[i].id < rows[j].id
    ensures forall i :: 0 <= i < |rows| && rows[i].id == id ==>
      id in WithRows(parts, rows) && WithRows(parts, rows)[id] == Inserted(rows[i])
    ensures (forall i :: 0 <= i < |rows| ==> rows[i].id != id) ==>
      (id in WithRows(parts, rows) <==> id in parts) && (id in parts ==> WithRows(parts, rows)[id] == parts[id])
  {
    if rows != [] {
      WithRowsAt(parts, rows[..|rows| - 1], id);
    }
  }

  /** Inserting a visible row above all others puts it last. */
  lemma ScanInsert(p: map<nat, Tuple>, row: PartitionRow, tid: nat, s: nat, base: nat, hi: nat)
    requires base < row.id <= hi && row.tableId == tid && row.snapshotId <= s
    requires forall id: nat :: row.id <= id <= hi ==> !Shows(p, tid, s, id)
    ensures Scan(WithRow(p, row), tid, s, base, hi) == Scan(p, tid, s, base, hi) + [row]
  {
    var q, m := WithRow(p, row), row.id - 1;
    InsertedAlone(p, row, tid, s, hi);
    ScanSplit(q, tid, s, base, m, hi);
    ScanSplit(p, tid, s, base, m, hi);
    ScanNothing(p, tid, s, m, hi);
    ScanSame(q, p, tid, s, s, base, m);
    assert Scan(p, tid, s, base, m) + [] == Scan(p, tid, s, base, m);
  }

  lemma InsertedAlone(p: map<nat, Tuple>, row: PartitionRow, tid: nat, s: nat, hi: nat)
    requires 0 < row.id <= hi && row.tableId == tid && row.snapshotId <= s
    requires forall id: nat :: row.id <= id <= hi ==> !Shows(p, tid, s, id)
    ensures Scan(WithRow(p, row), tid, s, row.id - 1, hi) == [row]
  {
    var q := WithRow(p, row);
    ScanSplit(q, tid, s, row.id - 1, row.id, hi);
    forall id: nat | row.id < id <= hi ensures !Shows(q, tid, s, id) {
      assert !Shows(p, tid, s, id);
    }
    ScanNothing(q, tid, s, row.id, hi);
    assert Scan(q, tid, s, row.id - 1, row.id) == [row];
  }

  /** Before the last of the rows is inserted, nothing shows from its id on. */
  lemma NothingAbove(p: map<nat, Tuple>, init: seq<PartitionRow>, tid: nat, s: nat, base: nat, from: nat, hi: nat)
    requires base < from && Ascending(init, base, from - 1)
    requires forall id: nat :: base < id <= hi ==> !Shows(p, tid, s, id)
    ensures forall id: nat :: from <= id <= hi ==> !Shows(WithRows(p, init), tid, s, id)
  {
    forall id: nat | from <= id <= hi ensures !Shows(WithRows(p, init), tid, s, id) {
      WithRowsAt(p, init, id);
      assert !Shows(p, tid, s, id);
    }
  }

  lemma ScanFindsOneMore(p: map<nat, Tuple>, init: seq<PartitionRow>, row: PartitionRow, tid: nat, s: nat, base: nat,
      hi: nat)
    requires base < row.id <= hi && Ascending(init, base, row.id - 1) && row.tableId == tid && row.snapshotId <= s
    requires forall id: nat :: base < id <= hi ==> !Shows(p, tid, s, id)
    requires Scan(WithRows(p, init), tid, s, base, hi) == init
    ensures Scan(WithRow(WithRows(p, init), row), tid, s, base, hi) == init + [row]
  {
    NothingAbove(p, init, tid, s, base, row.id, hi);
    ScanInsert(WithRows(p, init), row, tid, s, base, hi);
  }

  /** Above base, where the table had no row, a scan finds the inserted rows in order. */
  lemma {:induction false} ScanFinds(p: map<nat, Tuple>, rows: seq<PartitionRow>, tid: nat, s: nat, base: nat, hi: nat)
    requires Ascending(rows, base, hi)
    requires forall i :: 0 <= i < |rows| ==> rows[i].tableId == tid && rows[i].snapshotId <= s
    requires forall id: nat :: base < id <= hi ==> !Shows(p, tid, s, id)
    ensures Scan(WithRows(p, rows), tid, s, base, hi) == rows
  {
    if rows == [] {
      ScanNothing(p, tid, s, base, hi);
    } else {
      var init, row := rows[..|rows| - 1], rows[|rows| - 1];
      assert Ascending(init, base, row.id - 1) && rows == init + [row];
      ScanFinds(p, init, tid, s, base, hi);
      assert WithRows(p, rows) == WithRow(WithRows(p, init), row);
      ScanFindsOneMore(p, init, row, tid, s, base, hi);
    }
  }

  /** Replaying skips numbers that name no commit of the table. */
  lemma {:induction false} ReplayedFurther(log: map<nat, Delta>, tid: nat, s: nat, r: nat)
    requires s <= r
    requires forall n :: s < n <= r && n in log ==> log[n].tableId != tid
    ensures Replayed(log, tid, r) == Replayed(log, tid, s)
    decreases r
  {
    if s < r {
      ReplayedFurther(log, tid, s, r - 1);
    }
  }

  lemma {:induction false} ReplayedSame(log: map<nat, Delta>, log': map<nat, Delta>, tid: nat, s: nat)
    requires forall n: nat :: n <= s ==>
      (n in log && log[n].tableId == tid <==> n in log' && log'[n].tableId == tid)
    requires forall n: nat :: n <= s && n in log && n in log' && log[n].tableId == tid ==> log[n] == log'[n]
    ensures Replayed(log, tid, s) == Replayed(log', tid, s)
  {
    if s > 0 {
      ReplayedSame(log, log', tid, s - 1);
    }
  }

  // ---- One commit ----

  /** A commit of snapshot n on table tid may be published: n is younger than
      everything of the table, and the new rows carry ids above the table's. */
  ghost predicate Publishable(parts: map<nat, Tuple>, log: map<nat, Delta>, tid: nat, n: nat, base: nat,
      added: seq<PartitionRow>, last: nat)
  {
    && 0 < n && base <= last
    && Ascending(added, base, last)
    && (forall i :: 0 <= i < |added| ==> added[i].tableId == tid && added[i].snapshotId == n && added[i].id !in parts)
    && (forall id :: id in parts && parts[id].row.tableId == tid ==>
          id <= base && parts[id].row.snapshotId < n && parts[id].deletedSnapshotId < n)
    && (forall m :: m in log && log[m].tableId == tid ==> m < n)
  }

  function Committed(parts: map<nat, Tuple>, tid: nat, n: nat, added: seq<PartitionRow>,
      keys: set<string>): map<nat, Tuple>
  {
    MarkDeleted(WithRows(parts, added), tid, keys, n)
  }

  /** What a published commit makes of one id, as seen at snapshot s. */
  lemma CommittedAt(parts: map<nat, Tuple>, log: map<nat, Delta>, tid: nat, n: nat, base: nat,
      added: seq<PartitionRow>, last: nat, keys: set<string>, other: nat, s: nat, id: nat)
    requires Publishable(parts, log, tid, n, base, added, last)
    ensures var q, w := Committed(parts, tid, n, added, keys), WithRows(parts, added);
      && (other != tid || s < n ==> SameAt(parts, s, q, s, other, id))
      && (s >= n && id <= base ==> DroppedAt(parts, n - 1, q, s, keys, tid, id))
      && (s >= n && id > base ==> DroppedAt(w, n, q, s, keys, tid, id))
  {
    WithRowsAt(parts, added, id);
    if i :| 0 <= i < |added| && added[i].id == id {
      assert WithRows(parts, added)[id] == Inserted(added[i]);
    }
  }

  lemma {:induction false} DropKeysConcat(a: seq<PartitionRow>, b: seq<PartitionRow>, keys: set<string>)
    ensures DropKeys(a + b, keys) == DropKeys(a, keys) + DropKeys(b, keys)
  {
    if b == [] {
      assert a + b == a;
    } else {
      DropKeysConcat(a, b[..|b| - 1], keys);
      assert (a + b)[..|a + b| - 1] == a + b[..|b| - 1];
    }
  }

  lemma {:induction false} DropKeysTwice(rows: seq<PartitionRow>, a: set<string>, b: set<string>)
    ensures DropKeys(DropKeys(rows, a), b) == DropKeys(rows, a + b)
  {
    if rows != [] {
      var init, row := rows[..|rows| - 1], rows[|rows| - 1];
      DropKeysTwice(init, a, b);
      var kept := DropKeys(init, a);
      if row.data.key in a {
        assert kept + [] == kept;
        assert DropKeys(rows, a) == kept;
      } else {
        assert (kept + [row])[..|kept|] == kept;
      }
    }
  }

  lemma {:induction false} KeptKeys(rows: seq<PartitionRow>, keys: set<string>)
    ensures forall i :: 0 <= i < |DropKeys(rows, keys)| ==> DropKeys(rows, keys)[i].data.key !in keys
    ensures (forall i :: 0 <= i < |rows| ==> rows[i].data.key !in keys) ==> DropKeys(rows, keys) == rows
    ensures DropKeys(rows, keys) == [] <==> forall i :: 0 <= i < |rows| ==> rows[i].data.key in keys
  {
    if rows != [] {
      KeptKeys(rows[..|rows| - 1], keys);
    }
  }

  lemma CommittedScanOld(parts: map<nat, Tuple>, log: map<nat, Delta>, tid: nat, n: nat, base: nat,
      added: seq<PartitionRow>, last: nat, keys: set<string>, s: nat)
    requires Publishable(parts, log, tid, n, base, added, last) && s >= n
    ensures Scan(Committed(parts, tid, n, added, keys), tid, s, 0, base) ==
            DropKeys(Scan(parts, tid, n - 1, 0, last), keys)
  {
    var q, m := Committed(parts, tid, n, added, keys), n - 1;
    forall id: nat | id <= base ensures DroppedAt(parts, m, q, s, keys, tid, id) {
      CommittedAt(parts, log, tid, n, base, added, last, keys, tid, s, id);
    }
    ScanDropsKeys(parts, q, keys, tid, m, s, 0, base);
    ScanSplit(parts, tid, m, 0, base, last);
    ScanNothing(parts, tid, m, base, last);
    assert Scan(parts, tid, m, 0, base) + [] == Scan(parts, tid, m, 0, base);
  }

  lemma CommittedScanNew(parts: map<nat, Tuple>, log: map<nat, Delta>, tid: nat, n: nat, base: nat,
      added: seq<PartitionRow>, last: nat, keys: set<string>, s: nat)
    requires Publishable(parts, log, tid, n, base, added, last) && s >= n
    ensures Scan(Committed(parts, tid, n, added, keys), tid, s, base, last) == DropKeys(added, keys)
  {
    var q, w := Committed(parts, tid, n, added, keys), WithRows(parts, added);
    forall id: nat | id > base ensures DroppedAt(w, n, q, s, keys, tid, id) {
      CommittedAt(parts, log, tid, n, base, added, last, keys, tid, s, id);
    }
    ScanDropsKeys(w, q, keys, tid, n, s, base, last);
    ScanFinds(parts, added, tid, n, base, last);
  }

  /** At and after its own snapshot, a commit shows the old rows plus its own, less its deleted keys. */
  lemma CommittedScan(parts: map<nat, Tuple>, log: map<nat, Delta>, tid: nat, n: nat, base: nat,
      added: seq<PartitionRow>, last: nat, keys: set<string>, s: nat)
    requires Publishable(parts, log, tid, n, base, added, last) && s >= n
    ensures Scan(Committed(parts, tid, n, added, keys), tid, s, 0, last) ==
            DropKeys(Scan(parts, tid, n - 1, 0, last) + added, keys)
  {
    CommittedScanOld(parts, log, tid, n, base, added, last, keys, s);
    CommittedScanNew(parts, log, tid, n, base, added, last, keys, s);
    ScanSplit(Committed(parts, tid, n, added, keys), tid, s, 0, base, last);
    DropKeysConcat(Scan(parts, tid, n - 1, 0, last), added, keys);
  }

  /** Publishing a commit keeps reading equal to replaying, for every table and snapshot. */
  lemma PublishRefines(parts: map<nat, Tuple>, log: map<nat, Delta>, tid: nat, n: nat, base: nat,
      added: seq<PartitionRow>, last: nat, keys: set<string>)
    requires Publishable(parts, log, tid, n, base, added, last)
    requires Refines(parts, last, log) && n !in log
    ensures Refines(Committed(parts, tid, n, added, keys), last, log[n := Delta(tid, added, keys)])
  {
    var q, log' := Committed(parts, tid, n, added, keys), log[n := Delta(tid, added, keys)];
    forall other: nat, s: nat ensures Scan(q, other, s, 0, last) == Replayed(log', other, s) {
      assert Scan(parts, other, s, 0, last) == Replayed(log, other, s);
      if other != tid || s < n {
        forall id: nat ensures SameAt(parts, s, q, s, other, id) {
          CommittedAt(parts, log, tid, n, base, added, last, keys, other, s, id);
        }
        ScanSame(parts, q, other, s, s, 0, last);
        ReplayedSame(log, log', other, s);
      } else {
        CommittedScan(parts, log, tid, n, base, added, last, keys, s);
        assert Scan(parts, tid, n - 1, 0, last) == Replayed(log, tid, n - 1);
        ReplayedSame(log, log', tid, n - 1);
        ReplayedFurther(log', tid, n, s);
      }
    }
  }
}
