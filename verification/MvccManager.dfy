/** MVCCManager as the server runs it: each method is one or more steps of the
    transaction protocol. */
module MvccManager {
  import opened Options
  import T = Transactions

  /** The three atomic steps of a begin that nobody interrupts. */
  function Begin(id: nat, now: int): seq<T.Event> {
    [T.DrawId] + ([T.LoadSnapshot(id)] + ([T.InsertTxn(id, now)] + []))
  }

  lemma RunFurther(m: T.Manager, e: T.Event, rest: seq<T.Event>)
    requires T.Enabled(m, e) && T.Runs(T.Step(m, e), rest)
    ensures T.Runs(m, [e] + rest) && T.After(m, [e] + rest) == T.After(T.Step(m, e), rest)
  {
    assert ([e] + rest)[1..] == rest;
  }

  /** A begin's first two steps. */
  function BegunSnapshot(m: T.Manager): T.Manager {
    T.Step(T.Step(m, T.DrawId), T.LoadSnapshot(m.nextId))
  }

  /** Uninterrupted, a begin takes the next id, reads the counter, and pins what it read. */
  lemma BeginAlone(m: T.Manager, now: int)
    requires T.Ok(m)
    ensures T.Runs(m, Begin(m.nextId, now))
    ensures T.After(m, Begin(m.nextId, now)) ==
            m.(nextId := m.nextId + 1, active := m.active[m.nextId := T.Txn(m.latest, now)],
              pinned := m.pinned + {m.latest})
  {
    var m2 := BegunSnapshot(m);
    RunFurther(m2, T.InsertTxn(m.nextId, now), []);
    RunFurther(T.Step(m, T.DrawId), T.LoadSnapshot(m.nextId), [T.InsertTxn(m.nextId, now)] + []);
    RunFurther(m, T.DrawId, [T.LoadSnapshot(m.nextId)] + ([T.InsertTxn(m.nextId, now)] + []));
    assert m2.begins - {m.nextId} == m.begins;
  }

  /** The snapshots of the expired transactions that a sweep has left behind. */
  ghost function Unpinned(m: T.Manager, todo: set<nat>, now: int): set<nat> {
    set id | id in m.active && id !in todo && T.Expired(m, id, now) :: m.active[id].readSnapshot
  }

  class MVCCManager {
    const timeout: nat
    var nextTxnId: nat
    var latest: nat
    var active: map<nat, T.Txn>
    var pinned: set<nat>
    /** Begins that other threads have under way. */
    ghost var begins: map<nat, Option<nat>>

    ghost function View(): T.Manager
      reads this
    {
      T.Manager(timeout, nextTxnId, latest, begins, active, pinned)
    }

    constructor (timeout: nat)
      ensures View() == T.Fresh(timeout)
      ensures this.timeout == timeout && nextTxnId == 1 && latest == 0 && active == map[] && pinned == {}
    {
      this.timeout := timeout;
      nextTxnId, latest, active, pinned, begins := 1, 0, map[], {}, map[];
    }

    /** One call without interference: the three atomic steps in a row. */
    method BeginTransaction(now: int) returns (id: nat, read: nat)
      requires T.Ok(View())
      modifies this
      ensures id == old(nextTxnId) && read == old(latest)
      ensures T.Runs(old(View()), Begin(id, now)) && View() == T.After(old(View()), Begin(id, now))
      ensures active == old(active)[id := T.Txn(read, now)] && id !in old(active) && read in pinned
    {
      id := nextTxnId;
      nextTxnId := nextTxnId + 1;
      read := latest;
      active := active[id := T.Txn(read, now)];
      pinned := pinned + {read};
      BeginAlone(old(View()), now);
    }

    /** The publish loop under the mutex; spurious counts the times that
        compare_exchange_weak fails although nobody else writes the counter. */
    method CommitTransaction(id: nat, now: int, spurious: nat) returns (ok: bool)
      modifies this
      ensures ok <==> id in old(active) && now - old(active)[id].startedAt <= timeout
      ensures latest == old(latest) + (if ok then 1 else 0) && active == old(active) - {id}
      ensures ok == T.Succeeds(old(View()), T.Commit(id, now))
      ensures View() == T.Step(old(View()), T.Commit(id, now))
    {
      if id !in active {
        return false;
      }
      var txn := active[id];
      if now - txn.startedAt > timeout {
        Erase(id);
        return false;
      }
      var next := latest + 1;
      var current := latest;
      var failures := spurious;
      while current < next
        invariant latest == old(latest) == current && next == current + 1
        invariant nextTxnId == old(nextTxnId) && active == old(active) && pinned == old(pinned) && begins == old(begins)
        decreases failures
      {
        if failures == 0 && latest == current {
          latest := next;
          break;
        }
        current := latest;
        next := current + 1;
        failures := failures - 1;
      }
      Erase(id);
      return true;
    }

    method Erase(id: nat)
      requires id in active
      modifies this`active, this`pinned
      ensures View() == T.Finish(old(View()), id)
    {
      pinned := pinned - {active[id].readSnapshot};
      active := active - {id};
    }

    method AbortTransaction(id: nat)
      modifies this
      ensures latest == old(latest) && active == old(active) - {id}
      ensures View() == T.Step(old(View()), T.Abort(id))
    {
      if id in active {
        Erase(id);
      }
    }

    /** Erases while iterating, in whatever order the hash table yields the ids. */
    method CleanupExpiredTransactions(now: int) returns (cleaned: nat)
      modifies this
      ensures View() == T.Step(old(View()), T.Cleanup(now))
      ensures cleaned == |old(active)| - |active| && latest == old(latest)
      ensures forall id :: id in active <==> id in old(active) && now - old(active)[id].startedAt <= timeout
      ensures forall id :: id in active ==> active[id] == old(active)[id]
    {
      cleaned := 0;
      var todo := active.Keys;
      while todo != {}
        invariant todo <= active.Keys
        invariant forall id :: id in active <==> id in old(active) && (id in todo || !T.Expired(old(View()), id, now))
        invariant forall id :: id in active ==> active[id] == old(active)[id]
        invariant pinned == old(pinned) - Unpinned(old(View()), todo, now)
        invariant cleaned + |active| == |old(active)|
        invariant latest == old(latest) && nextTxnId == old(nextTxnId) && begins == old(begins)
        decreases |todo|
      {
        var id :| id in todo;
        if now - active[id].startedAt > timeout {
          assert active.Keys == (active - {id}).Keys + {id};
          Erase(id);
          cleaned := cleaned + 1;
        }
        todo := todo - {id};
      }
    }

    method GetLatestCommittedSnapshot() returns (r: nat)
      ensures r == View().latest
    {
      r := latest;
    }

    method IsSnapshotPinned(s: nat) returns (r: bool)
      ensures r == (s in View().pinned)
    {
      r := s in pinned;
    }

    method ActiveTransactionCount() returns (n: nat)
      ensures n == |View().active|
    {
      n := |active|;
    }
  }
}
