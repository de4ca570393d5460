/** The MVCC manager's protocol: a begin in its three atomic steps, commits,
    aborts and expiry, against a clock that never runs backwards. */
module Transactions {
  import opened Options

  datatype Txn = Txn(readSnapshot: nat, startedAt: int)

  /** begins holds the ids drawn by a begin that has not inserted yet, with the
      snapshot it has loaded, if it has. */
  datatype Manager = Manager(
    timeout: nat, nextId: nat, latest: nat, begins: map<nat, Option<nat>>, active: map<nat, Txn>, pinned: set<nat>)

  datatype Event =
    | DrawId
    | LoadSnapshot(id: nat)
    | InsertTxn(id: nat, now: int)
    | Commit(id: nat, now: int)
    | Abort(id: nat)
    | Cleanup(now: int)

  function Fresh(timeout: nat): Manager {
    Manager(timeout, 1, 0, map[], map[], {})
  }

  predicate Expired(m: Manager, id: nat, now: int)
    requires id in m.active
  {
    now - m.active[id].startedAt > m.timeout
  }

  predicate Enabled(m: Manager, e: Event) {
    match e
    case LoadSnapshot(id) => id in m.begins && m.begins[id].None?
    case InsertTxn(id, _) => id in m.begins && m.begins[id].Some?
    case _ => true
  }

  /** A transaction leaves, and takes the pin on its snapshot with it. */
  function Finish(m: Manager, id: nat): Manager {
    if id in m.active then m.(pinned := m.pinned - {m.active[id].readSnapshot}, active := m.active - {id}) else m
  }

  predicate Succeeds(m: Manager, e: Event) {
    e.Commit? && e.id in m.active && !Expired(m, e.id, e.now)
  }

  function Step(m: Manager, e: Event): Manager
    requires Enabled(m, e)
  {
    match e
    case DrawId => m.(nextId := m.nextId + 1, begins := m.begins[m.nextId := None])
    case LoadSnapshot(id) => m.(begins := m.begins[id := Some(m.latest)])
    case InsertTxn(id, now) =>
      var read := m.begins[id].value;
      m.(begins := m.begins - {id}, active := m.active[id := Txn(read, now)], pinned := m.pinned + {read})
    case Commit(id, now) =>
      if Succeeds(m, e) then Finish(m, id).(latest := m.latest + 1) else Finish(m, id)
    case Abort(id) => Finish(m, id)
    case Cleanup(now) =>
      m.(active := map id | id in m.active && !Expired(m, id, now) :: m.active[id],
         pinned := m.pinned - set id | id in m.active && Expired(m, id, now) :: m.active[id].readSnapshot)
  }

  ghost predicate Runs(m: Manager, es: seq<Event>)
    decreases |es|
  {
    es == [] || (Enabled(m, es[0]) && Runs(Step(m, es[0]), es[1..]))
  }

  ghost function After(m: Manager, es: seq<Event>): Manager
    requires Runs(m, es)
    decreases |es|
  {
    if es == [] then m else After(Step(m, es[0]), es[1..])
  }

  // ---- Lifecycle ----

  ghost predicate Ok(m: Manager) {
    && (forall id :: id in m.active ==> id < m.nextId && id !in m.begins && m.active[id].readSnapshot <= m.latest)
    && (forall id :: id in m.begins ==> id < m.nextId && (m.begins[id].Some? ==> m.begins[id].value <= m.latest))
    && (forall p :: p in m.pinned ==> exists id :: id in m.active && m.active[id].readSnapshot == p)
  }

  lemma StepOk(m: Manager, e: Event)
    requires Ok(m) && Enabled(m, e)
    ensures Ok(Step(m, e))
  {
    var m' := Step(m, e);
    forall p | p in m'.pinned ensures exists id :: id in m'.active && m'.active[id].readSnapshot == p {
      if p in m.pinned {
        var id :| id in m.active && m.active[id].readSnapshot == p;
        if e.InsertTxn? {
          assert id in m'.active;
        } else {
          assert id in m'.active && m'.active[id] == m.active[id];
        }
      } else {
        assert e.InsertTxn? && m'.active[e.id].readSnapshot == p;
      }
    }
  }

  function Successes(m: Manager, es: seq<Event>): nat
    requires Runs(m, es)
    decreases |es|
  {
    if es == [] then 0 else (if Succeeds(m, es[0]) then 1 else 0) + Successes(Step(m, es[0]), es[1..])
  }

  /** The counter is the number of successful commits, active transactions and pins
      read at most it, and it never goes back. */
  lemma {:induction false} CounterCountsCommits(m: Manager, es: seq<Event>)
    requires Ok(m) && Runs(m, es)
    ensures Ok(After(m, es))
    ensures After(m, es).latest == m.latest + Successes(m, es)
    ensures After(m, es).nextId >= m.nextId
    decreases |es|
  {
    if es != [] {
      StepOk(m, es[0]);
      CounterCountsCommits(Step(m, es[0]), es[1..]);
    }
  }

  /** The id was drawn, and its transaction has left. */
  ghost predicate Gone(m: Manager, id: nat) {
    id < m.nextId && id !in m.begins && id !in m.active
  }

  /** An id that has left never comes back, and no commit of it succeeds. */
  lemma {:induction false} GoneForGood(m: Manager, es: seq<Event>, id: nat)
    requires Ok(m) && Gone(m, id) && Runs(m, es)
    ensures Gone(After(m, es), id)
    ensures forall now :: !Succeeds(After(m, es), Commit(id, now))
    decreases |es|
  {
    if es != [] {
      StepOk(m, es[0]);
      GoneForGood(Step(m, es[0]), es[1..], id);
    }
  }

  /** So each id commits at most once. */
  lemma CommitsOnce(m: Manager, id: nat, now: int, es: seq<Event>, later: int)
    requires Ok(m) && Succeeds(m, Commit(id, now)) && Runs(Step(m, Commit(id, now)), es)
    ensures !Succeeds(After(Step(m, Commit(id, now)), es), Commit(id, later))
  {
    StepOk(m, Commit(id, now));
    GoneForGood(Step(m, Commit(id, now)), es, id);
  }

  /** Every begin that starts from here on reads at least r. */
  ghost predicate ReadsSince(m: Manager, first: nat, r: nat) {
    && r <= m.latest && first <= m.nextId
    && (forall id :: id in m.active && first <= id ==> r <= m.active[id].readSnapshot)
    && (forall id :: id in m.begins && first <= id && m.begins[id].Some? ==> r <= m.begins[id].value)
  }

  lemma {:induction false} ReadsSinceKept(m: Manager, es: seq<Event>, first: nat, r: nat)
    requires Ok(m) && ReadsSince(m, first, r) && Runs(m, es)
    ensures ReadsSince(After(m, es), first, r)
    decreases |es|
  {
    if es != [] {
      StepOk(m, es[0]);
      ReadsSinceKept(Step(m, es[0]), es[1..], first, r);
    }
  }

  /** A begin that starts after a commit returned reads that commit's value or a later one. */
  lemma LaterBeginsSeeTheCommit(m: Manager, id: nat, now: int, es: seq<Event>, late: nat)
    requires Ok(m) && Succeeds(m, Commit(id, now)) && Runs(Step(m, Commit(id, now)), es)
    requires late >= m.nextId && late in After(Step(m, Commit(id, now)), es).active
    ensures After(Step(m, Commit(id, now)), es).active[late].readSnapshot >= m.latest + 1
  {
    StepOk(m, Commit(id, now));
    ReadsSinceKept(Step(m, Commit(id, now)), es, m.nextId, m.latest + 1);
  }

  // ---- Timeout ----

  function Time(e: Event, before: int): int {
    if e.InsertTxn? || e.Commit? || e.Cleanup? then e.now else before
  }

  /** The clock readings of a run, all taken under the manager's mutex, never decrease. */
  predicate Monotone(es: seq<Event>, from: int)
    decreases |es|
  {
    es == [] || (from <= Time(es[0], from) && Monotone(es[1..], Time(es[0], from)))
  }

  /** No event of the run commits or aborts the transaction. */
  predicate Untouched(es: seq<Event>, id: nat) {
    forall k :: 0 <= k < |es| ==> !((es[k].Commit? || es[k].Abort?) && es[k].id == id)
  }

  /** Where a transaction begun at t is at time now or before: active with that begin, or
      swept after its time was up. */
  ghost predicate BegunAt(m: Manager, id: nat, t: int, now: int) {
    && id < m.nextId && id !in m.begins
    && if id in m.active then m.active[id].startedAt == t else now - t > m.timeout
  }

  lemma {:induction false} BegunKept(m: Manager, es: seq<Event>, id: nat, t: int, from: int, now: int)
    requires Ok(m) && Runs(m, es) && Untouched(es, id) && Monotone(es, from) && BegunAt(m, id, t, now)
    requires forall k :: 0 <= k < |es| && es[k].Cleanup? ==> es[k].now <= now
    ensures BegunAt(After(m, es), id, t, now) && After(m, es).timeout == m.timeout
    decreases |es|
  {
    if es != [] {
      StepOk(m, es[0]);
      BegunStep(m, es[0], id, t, now);
      assert forall k :: 0 <= k < |es[1..]| ==> es[1..][k] == es[k + 1];
      BegunKept(Step(m, es[0]), es[1..], id, t, Time(es[0], from), now);
    }
  }

  lemma BegunStep(m: Manager, e: Event, id: nat, t: int, now: int)
    requires Ok(m) && Enabled(m, e) && BegunAt(m, id, t, now)
    requires !((e.Commit? || e.Abort?) && e.id == id) && (e.Cleanup? ==> e.now <= now)
    ensures BegunAt(Step(m, e), id, t, now) && Step(m, e).timeout == m.timeout
  {
  }

  /** A transaction begun at t that nobody has ended commits at now exactly if no more
      than the timeout has passed, whatever sweeps there have been. */
  lemma CommitsWithinTimeout(m: Manager, id: nat, t: int, es: seq<Event>, now: int)
    requires Ok(m) && Enabled(m, InsertTxn(id, t)) && Runs(Step(m, InsertTxn(id, t)), es)
    requires Untouched(es, id) && Monotone(es, t)
    requires forall k :: 0 <= k < |es| ==> Time(es[k], now) <= now
    ensures Succeeds(After(Step(m, InsertTxn(id, t)), es), Commit(id, now)) <==> now - t <= m.timeout
  {
    StepOk(m, InsertTxn(id, t));
    BegunKept(Step(m, InsertTxn(id, t)), es, id, t, t, now);
  }

  /** A sweep ends exactly the transactions begun before now - timeout, and a commit or an
      abort exactly its own. */
  lemma EndsExactly(m: Manager, e: Event, id: nat)
    requires Enabled(m, e) && (e.Cleanup? || e.Commit? || e.Abort?)
    ensures
      var m' := Step(m, e);
      && (id in m'.active <==>
            && id in m.active
            && if e.Cleanup? then m.active[id].startedAt >= e.now - m.timeout else id != e.id)
      && (id in m'.active && id in m.active ==> m'.active[id] == m.active[id])
  {
  }

  // ---- Cleanup is invisible ----

  /** What a client sees of an event: a begin's id and snapshot, a commit's verdict; and the counter. */
  datatype Sight = Sight(began: Option<(nat, nat)>, committed: Option<bool>, latest: nat)

  function Seen(m: Manager, e: Event): Sight
    requires Enabled(m, e)
  {
    Sight(if e.InsertTxn? then Some((e.id, m.begins[e.id].value)) else None,
          if e.Commit? then Some(Succeeds(m, e)) else None,
          Step(m, e).latest)
  }

  ghost function Sights(m: Manager, es: seq<Event>): seq<Sight>
    requires Runs(m, es)
    decreases |es|
  {
    if es == [] then []
    else (if es[0].Cleanup? then [] else [Seen(m, es[0])]) + Sights(Step(m, es[0]), es[1..])
  }

  function WithoutCleanups(es: seq<Event>): seq<Event> {
    if es == [] then []
    else (if es[0].Cleanup? then [] else [es[0]]) + WithoutCleanups(es[1..])
  }

  /** The transactions not yet expired at now. */
  function Live(m: Manager, now: int): map<nat, Txn> {
    map id | id in m.active && !Expired(m, id, now) :: m.active[id]
  }

  /** Two managers that differ only in expired transactions and in pins. */
  ghost predicate Alike(a: Manager, b: Manager, now: int) {
    && a.timeout == b.timeout && a.nextId == b.nextId && a.latest == b.latest && a.begins == b.begins
    && Live(a, now) == Live(b, now)
  }

  lemma AlikeLater(a: Manager, b: Manager, now: int, later: int)
    requires Alike(a, b, now) && now <= later
    ensures Alike(a, b, later)
  {
    assert forall id :: id in Live(a, later) ==> id in Live(a, now);
    assert forall id :: id in Live(b, later) ==> id in Live(b, now);
    forall id | id in Live(a, later) ensures id in Live(b, later) && Live(b, later)[id] == Live(a, later)[id] {
      assert Live(a, now)[id] == Live(b, now)[id];
    }
    forall id | id in Live(b, later) ensures id in Live(a, later) {
      assert Live(a, now)[id] == Live(b, now)[id];
    }
  }

  lemma AlikeCleaned(a: Manager, b: Manager, now: int)
    requires Alike(a, b, now)
    ensures Alike(Step(a, Cleanup(now)), b, now)
  {
    assert Live(Step(a, Cleanup(now)), now) == Live(a, now);
  }

  /** What a step does to the transactions not yet expired. */
  lemma LiveStep(m: Manager, now: int, e: Event)
    requires !e.Cleanup? && Time(e, now) == now && Enabled(m, e)
    ensures
      Live(Step(m, e), now) ==
      match e
      case InsertTxn(id, _) => Live(m, now)[id := Txn(m.begins[id].value, now)]
      case Commit(id, _) => Live(m, now) - {id}
      case Abort(id) => Live(m, now) - {id}
      case _ => Live(m, now)
  {
  }

  lemma AlikeStep(a: Manager, b: Manager, now: int, e: Event)
    requires Alike(a, b, now) && !e.Cleanup? && Time(e, now) == now && Enabled(a, e)
    ensures Enabled(b, e) && Seen(a, e) == Seen(b, e)
    ensures Alike(Step(a, e), Step(b, e), now)
  {
    if e.Commit? {
      assert e.id in Live(a, now) <==> e.id in Live(b, now);
    }
    LiveStep(a, now, e);
    LiveStep(b, now, e);
  }

  /** Two-run simulation: a run with cleanups shows what the run without them shows. */
  lemma {:induction false} CleanupsSimulated(a: Manager, b: Manager, now: int, es: seq<Event>)
    requires Alike(a, b, now) && Runs(a, es) && Monotone(es, now)
    ensures Runs(b, WithoutCleanups(es)) && Sights(b, WithoutCleanups(es)) == Sights(a, es)
    decreases |es|
  {
    if es != [] {
      var e, later, rest := es[0], Time(es[0], now), WithoutCleanups(es[1..]);
      AlikeLater(a, b, now, later);
      if e.Cleanup? {
        AlikeCleaned(a, b, later);
        CleanupsSimulated(Step(a, e), b, later, es[1..]);
        assert WithoutCleanups(es) == rest;
      } else {
        AlikeStep(a, b, later, e);
        CleanupsSimulated(Step(a, e), Step(b, e), later, es[1..]);
        assert WithoutCleanups(es) == [e] + rest;
        assert ([e] + rest)[1..] == rest;
      }
    }
  }

  /** Cleanup is invisible: two runs that differ in where and how often expired
      transactions are swept show clients the same begins, verdicts and counters. */
  lemma CleanupIsInvisible(m: Manager, now: int, es: seq<Event>, fs: seq<Event>)
    requires WithoutCleanups(es) == WithoutCleanups(fs)
    requires Runs(m, es) && Monotone(es, now) && Runs(m, fs) && Monotone(fs, now)
    ensures Sights(m, es) == Sights(m, fs)
  {
    CleanupsSimulated(m, m, now, es);
    CleanupsSimulated(m, m, now, fs);
  }

  // ---- Pins ----

  /** The event finishes (commits, aborts, expires) a transaction reading s. */
  ghost predicate Finishes(m: Manager, e: Event, s: nat) {
    match e
    case Commit(id, _) => id in m.active && m.active[id].readSnapshot == s
    case Abort(id) => id in m.active && m.active[id].readSnapshot == s
    case Cleanup(now) => exists id :: id in m.active && Expired(m, id, now) && m.active[id].readSnapshot == s
    case _ => false
  }

  ghost predicate Pins(m: Manager, e: Event, s: nat) {
    e.InsertTxn? && e.id in m.begins && m.begins[e.id] == Some(s)
  }

  /** Whether s is pinned judged by the history alone: by the last event that
      inserted or finished a transaction reading s. */
  ghost function PinnedByHistory(m: Manager, es: seq<Event>, s: nat, before: bool): bool
    requires Runs(m, es)
    decreases |es|
  {
    if es == [] then before
    else PinnedByHistory(Step(m, es[0]), es[1..], s,
           if Pins(m, es[0], s) then true else if Finishes(m, es[0], s) then false else before)
  }

  lemma PinStep(m: Manager, e: Event, s: nat)
    requires Enabled(m, e)
    ensures s in Step(m, e).pinned <==> Pins(m, e, s) || (s in m.pinned && !Finishes(m, e, s))
  {
  }

  /** Exact pins: s is pinned iff the last begin or finish of a transaction reading s was a begin. */
  lemma {:induction false} PinsAreLastTouch(m: Manager, es: seq<Event>, s: nat)
    requires Runs(m, es)
    ensures s in After(m, es).pinned <==> PinnedByHistory(m, es, s, s in m.pinned)
    decreases |es|
  {
    if es != [] {
      PinStep(m, es[0], s);
      PinsAreLastTouch(Step(m, es[0]), es[1..], s);
    }
  }

  function ActiveReads(m: Manager): set<nat> {
    set id | id in m.active :: m.active[id].readSnapshot
  }

  /** Every snapshot an active transaction reads is pinned. */
  ghost predicate AllPinned(m: Manager) {
    ActiveReads(m) <= m.pinned
  }

  ghost predicate ReadsApart(m: Manager) {
    forall i, j :: i in m.active && j in m.active && i != j ==> m.active[i].readSnapshot != m.active[j].readSnapshot
  }

  /** Pins protect every reader as long as no two overlapping transactions share a snapshot... */
  ghost predicate ApartThroughout(m: Manager, es: seq<Event>)
    requires Runs(m, es)
    decreases |es|
  {
    ReadsApart(m) && (es == [] || ApartThroughout(Step(m, es[0]), es[1..]))
  }

  lemma {:induction false} ApartReadersStayPinned(m: Manager, es: seq<Event>)
    requires Ok(m) && AllPinned(m) && Runs(m, es) && ApartThroughout(m, es)
    ensures After(m, es).pinned == ActiveReads(After(m, es))
    decreases |es|
  {
    if es == [] {
      forall p | p in m.pinned ensures p in ActiveReads(m) {
        var id :| id in m.active && m.active[id].readSnapshot == p;
      }
    } else {
      StepOk(m, es[0]);
      ApartStep(m, es[0]);
      ApartReadersStayPinned(Step(m, es[0]), es[1..]);
    }
  }

  lemma ApartStep(m: Manager, e: Event)
    requires AllPinned(m) && ReadsApart(m) && Enabled(m, e)
    ensures AllPinned(Step(m, e))
  {
    var m' := Step(m, e);
    forall s | s in ActiveReads(m') ensures s in m'.pinned {
      var id :| id in m'.active && m'.active[id].readSnapshot == s;
      PinStep(m, e, s);
      if !Pins(m, e, s) {
        assert id in m.active && m.active[id] == m'.active[id] && s in ActiveReads(m);
      }
    }
  }

  /** ... and exactly so: one transaction's end leaves all readers pinned iff no
      other active transaction reads the same snapshot. */
  lemma FinishKeepsPinsIff(m: Manager, id: nat)
    requires AllPinned(m) && id in m.active
    ensures AllPinned(Finish(m, id)) <==>
            forall other :: other in m.active && other != id ==>
              m.active[other].readSnapshot != m.active[id].readSnapshot
  {
    var m' := Finish(m, id);
    if AllPinned(m') {
      forall other | other in m.active && other != id
        ensures m.active[other].readSnapshot != m.active[id].readSnapshot
      {
        assert other in m'.active && m'.active[other].readSnapshot in ActiveReads(m');
      }
    } else {
      var s :| s in ActiveReads(m') && s !in m'.pinned;
      var other :| other in m'.active && m'.active[other].readSnapshot == s;
      assert s in ActiveReads(m);
    }
  }

  /** The same for a sweep, however many transactions it ends: it leaves all readers
      pinned iff no transaction that survives it reads the snapshot of one that does not. */
  lemma SweepKeepsPinsIff(m: Manager, now: int)
    requires AllPinned(m)
    ensures
      AllPinned(Step(m, Cleanup(now))) <==>
      forall gone, left :: gone in m.active && left in m.active && Expired(m, gone, now) && !Expired(m, left, now) ==>
        m.active[gone].readSnapshot != m.active[left].readSnapshot
  {
    var m' := Step(m, Cleanup(now));
    if AllPinned(m') {
      forall gone, left | gone in m.active && left in m.active && Expired(m, gone, now) && !Expired(m, left, now)
        ensures m.active[gone].readSnapshot != m.active[left].readSnapshot
      {
        assert left in m'.active && m'.active[left].readSnapshot in ActiveReads(m');
      }
    } else {
      var s :| s in ActiveReads(m') && s !in m'.pinned;
      var left :| left in m'.active && m'.active[left].readSnapshot == s;
      assert s in ActiveReads(m);
      var gone :| gone in m.active && Expired(m, gone, now) && m.active[gone].readSnapshot == s;
      assert left in m.active && !Expired(m, left, now);
    }
  }
}
