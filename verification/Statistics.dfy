/** Partition statistics: what get_stats adds up, and how a commit changes it. */
module Statistics {
  import opened Options
  import opened Store
  import opened Replay
  import opened History
  import opened Reads

  datatype Totals = Totals(count: int, rows: int, bytes: int)

  datatype Stats = Stats(totals: Totals, averageBytes: int)

  const ZERO: Stats := Stats(Totals(0, 0, 0), 0)

  function Plus(a: Totals, b: Totals): Totals {
    Totals(a.count + b.count, a.rows + b.rows, a.bytes + b.bytes)
  }

  function Of(row: PartitionRow): Totals {
    Totals(1, row.data.rowCount, row.data.sizeBytes)
  }

  function Sum(rows: seq<PartitionRow>): Totals {
    if rows == [] then Totals(0, 0, 0) else Plus(Sum(rows[..|rows| - 1]), Of(rows[|rows| - 1]))
  }

  /** Integer division in C++ rounds towards zero, also for a negative total. */
  function Quotient(a: int, b: int): (q: int)
    requires b > 0
    ensures -b < a - q * b < b
    ensures (a >= 0 ==> a - q * b >= 0) && (a <= 0 ==> a - q * b <= 0)
  {
    if a >= 0 then a / b else -((-a) / b)
  }

  function StatsOf(rows: seq<PartitionRow>): Stats {
    var t := Sum(rows);
    Stats(t, if t.count > 0 then Quotient(t.bytes, t.count) else 0)
  }

  /** Zeros when there is no answer. */
  function StatsOrZero(rows: Option<seq<PartitionRow>>): Stats {
    if rows.Some? then StatsOf(rows.value) else ZERO
  }

  lemma SumMore(rows: seq<PartitionRow>, row: PartitionRow)
    ensures Sum(rows + [row]) == Plus(Sum(rows), Of(row))
  {
    assert (rows + [row])[..|rows|] == rows;
  }

  lemma {:induction false} SumConcat(a: seq<PartitionRow>, b: seq<PartitionRow>)
    ensures Sum(a + b) == Plus(Sum(a), Sum(b))
  {
    if b == [] {
      assert a + b == a;
    } else {
      var init, row := b[..|b| - 1], b[|b| - 1];
      SumConcat(a, init);
      SumMore(init, row);
      SumMore(a + init, row);
      assert b == init + [row] && a + b == (a + init) + [row];
    }
  }

  /** The rows that a commit with these deleted keys removes. */
  function Removed(rows: seq<PartitionRow>, keys: set<string>): seq<PartitionRow> {
    if rows == [] then []
    else Removed(rows[..|rows| - 1], keys) +
         if rows[|rows| - 1].data.key in keys then [rows[|rows| - 1]] else []
  }

  lemma {:induction false} KeptPlusRemoved(rows: seq<PartitionRow>, keys: set<string>)
    ensures Plus(Sum(DropKeys(rows, keys)), Sum(Removed(rows, keys))) == Sum(rows)
  {
    if rows != [] {
      var init, row := rows[..|rows| - 1], rows[|rows| - 1];
      KeptPlusRemoved(init, keys);
      Split(rows, keys);
      Regroup(Sum(DropKeys(init, keys)), Sum(Removed(init, keys)), Of(row));
    }
  }

  lemma Regroup(kept: Totals, removed: Totals, more: Totals)
    ensures Plus(Plus(kept, removed), more) == Plus(Plus(kept, more), removed) == Plus(kept, Plus(removed, more))
  {
  }

  lemma Split(rows: seq<PartitionRow>, keys: set<string>)
    requires rows != []
    ensures
      var init, row := rows[..|rows| - 1], rows[|rows| - 1];
      var kept, removed := Sum(DropKeys(init, keys)), Sum(Removed(init, keys));
      && Sum(rows) == Plus(Sum(init), Of(row))
      && Sum(DropKeys(rows, keys)) == (if row.data.key in keys then kept else Plus(kept, Of(row)))
      && Sum(Removed(rows, keys)) == (if row.data.key in keys then Plus(removed, Of(row)) else removed)
  {
    var init, row := rows[..|rows| - 1], rows[|rows| - 1];
    SumMore(DropKeys(init, keys), row);
    SumMore(Removed(init, keys), row);
    assert DropKeys(init, keys) + [] == DropKeys(init, keys);
    assert Removed(init, keys) + [] == Removed(init, keys);
  }

  lemma CommitScans(l: Ledger, x: string, tid: nat, n: nat, base: nat, req: Request, added: seq<PartitionRow>, s: nat)
    requires Shape(l) && Writing(l, x, tid, n, base, req, added) && n <= s
    ensures Scan(Published(l, x, n, req, added).db.partitions, tid, s, 0, l.db.lastPartition) ==
            DropKeys(Scan(l.db.partitions, tid, n - 1, 0, l.db.lastPartition) + added, KeySet(req.deleted))
  {
    WritingIsPublishable(l, x, tid, n, base, req, added);
    CommittedScan(l.db.partitions, l.log, tid, n, base, added, l.db.lastPartition, KeySet(req.deleted), s);
  }

  /** A commit's new row set, seen at its own snapshot or any later one. */
  lemma CommitApplies(l: Ledger, x: string, tid: nat, n: nat, base: nat, req: Request, added: seq<PartitionRow>, s: nat)
    requires Ok(l) && Writing(l, x, tid, n, base, req, added) && n <= s <= MAX_BIGINT
    ensures QueryPartitions(l.db, x, s).Some?
    ensures QueryPartitions(Published(l, x, n, req, added).db, x, s) ==
            Some(Apply(QueryPartitions(l.db, x, s).value, Delta(tid, added, KeySet(req.deleted))))
  {
    CommitScans(l, x, tid, n, base, req, added, s);
    SameAboveCurrent(l, x, n - 1, s);
    AppliesFromScans(l, x, n, req, added, s);
  }

  lemma AppliesFromScans(l: Ledger, x: string, n: nat, req: Request, added: seq<PartitionRow>, s: nat)
    requires IsLive(l.db, x) && 0 < n <= s <= MAX_BIGINT
    requires QueryPartitions(l.db, x, n - 1) == QueryPartitions(l.db, x, s)
    requires var tid, last := l.db.tables[x].id, l.db.lastPartition;
      Scan(Published(l, x, n, req, added).db.partitions, tid, s, 0, last) ==
      DropKeys(Scan(l.db.partitions, tid, n - 1, 0, last) + added, KeySet(req.deleted))
    ensures QueryPartitions(Published(l, x, n, req, added).db, x, s) ==
            Some(Apply(QueryPartitions(l.db, x, s).value, Delta(l.db.tables[x].id, added, KeySet(req.deleted))))
  {
  }

  /** All reads at or above the current snapshot agree. */
  lemma SameAboveCurrent(l: Ledger, x: string, r: nat, s: nat)
    requires Ok(l) && IsLive(l.db, x) && l.db.tables[x].current <= r <= MAX_BIGINT
    requires l.db.tables[x].current <= s <= MAX_BIGINT
    ensures QueryPartitions(l.db, x, r) == QueryPartitions(l.db, x, s)
  {
    LatestReadIsLiveRows(l, x, r);
    LatestReadIsLiveRows(l, x, s);
  }

  /** Across a commit the totals of the latest rows change by exactly what was
      added minus what was removed, old rows and just-added ones alike. */
  lemma StatsAcrossCommit(l: Ledger, x: string, tid: nat, n: nat, base: nat, req: Request, added: seq<PartitionRow>,
      s: nat)
    requires Ok(l) && Writing(l, x, tid, n, base, req, added) && n <= s <= MAX_BIGINT
    ensures
      var before, after := QueryPartitions(l.db, x, s), QueryPartitions(Published(l, x, n, req, added).db, x, s);
      && before.Some? && after.Some?
      && Plus(Sum(after.value), Sum(Removed(before.value + added, KeySet(req.deleted)))) ==
         Plus(Sum(before.value), Sum(added))
  {
    CommitApplies(l, x, tid, n, base, req, added, s);
    var before := QueryPartitions(l.db, x, s).value;
    KeptPlusRemoved(before + added, KeySet(req.deleted));
    SumConcat(before, added);
  }
}
