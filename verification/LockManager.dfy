/** LockManager: a registry, behind its own mutex, that gives each table name one
    shared mutex for good. Waiting for a table's mutex is only allowed with the
    registry's mutex given back. */
module LockManager {

  class Mutex {
    var held: bool

    constructor ()
      ensures !held
    {
      held := false;
    }

    /** Waits while somebody holds it. */
    method Lock()
      requires !held
      modifies this
      ensures held
    {
      held := true;
    }

    method Unlock()
      requires held
      modifies this
      ensures !held
    {
      held := false;
    }
  }

  class SharedMutex {
    var writer: bool
    var readers: nat

    constructor ()
      ensures !writer && readers == 0
    {
      writer, readers := false, 0;
    }

    /** Waits (not ok) while there is a writer, and may wait long: not inside the registry. */
    method LockShared(ghost registry: Mutex) returns (ok: bool)
      requires !registry.held
      modifies this`readers
      ensures ok == !writer && readers == old(readers) + if ok then 1 else 0
    {
      ok := !writer;
      if ok {
        readers := readers + 1;
      }
    }

    /** Waits (not ok) while there is anybody: not inside the registry. */
    method Lock(ghost registry: Mutex) returns (ok: bool)
      requires !registry.held
      modifies this`writer
      ensures ok == (old(Held()) == NOBODY) && writer == (old(writer) || ok)
    {
      ok := !writer && readers == 0;
      writer := writer || ok;
    }

    /** May fail though nobody is there; look says what it met. */
    method TryLock() returns (ok: bool, ghost look: Look)
      modifies this`writer
      ensures look.hold == old(Held()) && ok == (look.hold == NOBODY && !look.spurious)
      ensures writer == (old(writer) || ok)
    {
      look := Look(Held(), false);
      ok := !writer && readers == 0;
      if * {
        ok := false;
        look := Look(Held(), true);
      }
      writer := writer || ok;
    }

    method UnlockShared()
      requires readers > 0
      modifies this`readers
      ensures readers == old(readers) - 1
    {
      readers := readers - 1;
    }

    method Unlock()
      requires writer
      modifies this`writer
      ensures !writer
    {
      writer := false;
    }

    ghost function Held(): Hold
      reads this
    {
      Hold(writer, readers)
    }

    /** While a thread sleeps, others lock and unlock. */
    method OthersMove()
      requires writer ==> readers == 0
      modifies this
      ensures writer ==> readers == 0
    {
      var w: bool, r: nat :| w ==> r == 0;
      writer, readers := w, r;
    }

    /** Looks every sleep until one look locks or the deadline has passed; looks lists what they met. */
    method Poll(start: int, deadline: int, sleep: nat) returns (ok: bool, ghost looks: seq<Look>)
      requires sleep > 0 && (writer ==> readers == 0)
      modifies this
      ensures writer ==> readers == 0
      ensures ok ==> Held() == Hold(true, 0)
      ensures Polled(ok, looks) && (looks != [] <==> start < deadline)
      ensures OnTime(ok, |looks|, start, deadline, sleep)
      ensures if looks == [] then Held() == old(Held()) else looks[0].hold == old(Held())
    {
      var now := start;
      looks := [];
      while now < deadline
        invariant writer ==> readers == 0
        invariant now == start + |looks| * sleep && Polled(false, looks)
        invariant looks != [] ==> now - sleep < deadline
        invariant if now == start then looks == [] else looks != [] && start < deadline
        invariant if looks == [] then Held() == old(Held()) else looks[0].hold == old(Held())
        decreases deadline - now
      {
        ghost var look;
        ok, look := TryLock();
        looks := looks + [look];
        if ok {
          return;
        }
        OthersMove();
        now := now + sleep;
      }
      ok := false;
    }
  }

  /** What one try_lock met; a spurious failure is one with nobody there, or no matter who. */
  datatype Look = Look(hold: Hold, spurious: bool)

  /** A look that could not lock: somebody was there, or it failed spuriously. */
  predicate Fails(look: Look) {
    look.hold != NOBODY || look.spurious
  }

  /** Success is one look that met nobody after failing ones; without success all failed. */
  ghost predicate Polled(ok: bool, looks: seq<Look>) {
    && (ok ==> looks != [] && !Fails(looks[|looks| - 1]))
    && (forall k :: 0 <= k < |looks| && (!ok || k < |looks| - 1) ==> Fails(looks[k]))
  }

  /** The last look was before the deadline, and without success the next would not have been. */
  predicate OnTime(ok: bool, looks: nat, start: int, deadline: int, sleep: nat) {
    && (looks > 0 ==> start + (looks - 1) * sleep < deadline)
    && (!ok ==> deadline <= start + looks * sleep)
  }

  /** Who holds one table: nobody, some readers, or one writer. */
  datatype Hold = Hold(exclusive: bool, shared: nat)

  const NOBODY: Hold := Hold(false, 0)

  class LockManager {
    const registry: Mutex
    var tableLocks: map<string, SharedMutex>

    /** One mutex per name, held by one writer or by readers, never by both; and
        between calls this thread is not inside the registry. */
    ghost predicate Valid()
      reads this, registry, tableLocks.Values
    {
      && !registry.held
      && (forall x, y :: x in tableLocks && y in tableLocks && x != y ==> tableLocks[x] != tableLocks[y])
      && (forall x :: x in tableLocks ==> tableLocks[x].writer ==> tableLocks[x].readers == 0)
    }

    ghost function Holding(x: string): Hold
      reads this, tableLocks.Values
    {
      if x in tableLocks then Hold(tableLocks[x].writer, tableLocks[x].readers) else NOBODY
    }

    /** Names keep the mutex they were given, and no mutex changes hands but name's. */
    twostate predicate OnlyTouches(name: string)
      reads this, tableLocks.Values
    {
      && (forall x :: x in old(tableLocks) ==> x in tableLocks && tableLocks[x] == old(tableLocks)[x])
      && (forall x :: x in tableLocks && x !in old(tableLocks) ==> x == name)
      && (forall x :: x != name ==> Holding(x) == old(Holding(x)))
    }

    constructor ()
      ensures Valid() && forall x :: Holding(x) == NOBODY
    {
      registry := new Mutex();
      tableLocks := map[];
    }

    /** Inside the registry: find the name's mutex or create it; and out again. */
    method GetOrCreate(name: string) returns (m: SharedMutex)
      requires Valid()
      modifies this`tableLocks, registry
      ensures Valid() && OnlyTouches(name) && name in tableLocks && tableLocks[name] == m
      ensures Holding(name) == old(Holding(name)) && (m in old(tableLocks).Values || fresh(m))
    {
      registry.Lock();
      if name !in tableLocks {
        m := new SharedMutex();
        tableLocks := tableLocks[name := m];
      }
      m := tableLocks[name];
      registry.Unlock();
    }

    /** One reader more; or, exactly while a writer holds the table, waiting (not ok)
        with the registry given back and no hold changed. */
    method AcquireShared(name: string) returns (ok: bool)
      requires Valid()
      modifies this`tableLocks, registry, tableLocks.Values
      ensures Valid() && OnlyTouches(name) && ok == !old(Holding(name)).exclusive
      ensures Holding(name) == if ok then Hold(false, old(Holding(name)).shared + 1) else old(Holding(name))
    {
      var m := GetOrCreate(name);
      ok := m.LockShared(registry);
    }

    /** False stands for the exception thrown for a name never locked; the registry
        is free again either way. */
    method ReleaseShared(name: string) returns (known: bool)
      requires Valid() && (name in tableLocks ==> Holding(name).shared > 0)
      modifies registry, tableLocks.Values
      ensures Valid() && OnlyTouches(name) && known == (name in tableLocks)
      ensures known ==> Holding(name) == Hold(false, old(Holding(name)).shared - 1)
    {
      registry.Lock();
      known := name in tableLocks;
      if known {
        tableLocks[name].UnlockShared();
      }
      registry.Unlock();
    }

    /** The writer; or, exactly while anybody holds the table, waiting (not ok) with
        the registry given back and no hold changed. */
    method AcquireExclusive(name: string) returns (ok: bool)
      requires Valid()
      modifies this`tableLocks, registry, tableLocks.Values
      ensures Valid() && OnlyTouches(name) && ok == (old(Holding(name)) == NOBODY)
      ensures Holding(name) == if ok then Hold(true, 0) else old(Holding(name))
    {
      var m := GetOrCreate(name);
      ok := m.Lock(registry);
    }

    method ReleaseExclusive(name: string) returns (known: bool)
      requires Valid() && (name in tableLocks ==> Holding(name).exclusive)
      modifies registry, tableLocks.Values
      ensures Valid() && OnlyTouches(name) && known == (name in tableLocks)
      ensures known ==> Holding(name) == NOBODY
    {
      registry.Lock();
      known := name in tableLocks;
      if known {
        tableLocks[name].Unlock();
      }
      registry.Unlock();
    }

    /** Looks, with sleeps between the looks during which others lock and unlock the
        table. Success is holding the table exclusively, after a look that met nobody;
        without it every look met somebody or failed spuriously, and the looks went on,
        one every sleep, until the deadline. */
    method TryAcquireExclusive(name: string, start: int, deadline: int, sleep: nat)
      returns (ok: bool, ghost looks: seq<Look>)
      requires Valid() && sleep > 0
      modifies this`tableLocks, registry, tableLocks.Values
      ensures Valid() && OnlyTouches(name)
      ensures ok ==> Holding(name) == Hold(true, 0)
      ensures Polled(ok, looks) && (looks != [] <==> start < deadline)
      ensures OnTime(ok, |looks|, start, deadline, sleep)
      ensures if looks == [] then Holding(name) == old(Holding(name)) else looks[0].hold == old(Holding(name))
    {
      var m := GetOrCreate(name);
      ok, looks := m.Poll(start, deadline, sleep);
    }
  }
}
