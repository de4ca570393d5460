/** The connection pool and its move-only handles: who owns which connection. */
module ConnectionPool {
  import opened Options

  /** A PGconn, as a number that PQconnectdb never gives out twice. */
  type Conn = nat

  // ---- Ownership, on values ----

  /** The number of handles in a row that hold c. */
  function HandleSlots(conns: seq<Option<Conn>>, c: Conn): nat {
    if conns == [] then 0 else HandleSlots(conns[..|conns| - 1], c) + if conns[|conns| - 1] == Some(c) then 1 else 0
  }

  function QueueSlots(queue: seq<Conn>, c: Conn): nat {
    multiset(queue)[c]
  }

  function Slots(queue: seq<Conn>, conns: seq<Option<Conn>>, c: Conn): nat {
    QueueSlots(queue, c) + HandleSlots(conns, c)
  }

  /** Each live connection is in exactly one queue slot or one handle, any other in none. */
  ghost predicate OneOwner(queue: seq<Conn>, conns: seq<Option<Conn>>, live: set<Conn>) {
    forall c :: Slots(queue, conns, c) == if c in live then 1 else 0
  }

  function Holding(conns: seq<Option<Conn>>): nat {
    if conns == [] then 0 else Holding(conns[..|conns| - 1]) + if conns[|conns| - 1].Some? then 1 else 0
  }

  /** Queued and held connections add up to the live ones. */
  lemma {:induction false} Conservation(queue: seq<Conn>, conns: seq<Option<Conn>>, live: set<Conn>)
    requires OneOwner(queue, conns, live)
    ensures |queue| + Holding(conns) == |live|
    decreases |queue| + |conns|
  {
    if queue != [] {
      Broken(queue, conns, live);
      Conservation(queue[1..], conns, live - {queue[0]});
    } else if conns != [] {
      var init, last := conns[..|conns| - 1], conns[|conns| - 1];
      var rest := if last.Some? then live - {last.value} else live;
      assert last.Some? ==> Slots(queue, conns, last.value) == 1;
      forall c ensures Slots(queue, init, c) == if c in rest then 1 else 0 {
        assert Slots(queue, conns, c) == if c in live then 1 else 0;
      }
      Conservation(queue, init, rest);
    } else {
      forall c ensures c !in live {
        assert Slots(queue, conns, c) == 0;
      }
      assert live == {};
    }
  }

  lemma {:induction false} SlotsSet(conns: seq<Option<Conn>>, i: nat, conn: Option<Conn>, c: Conn)
    requires i < |conns|
    ensures HandleSlots(conns[i := conn], c) + (if conns[i] == Some(c) then 1 else 0) ==
            HandleSlots(conns, c) + (if conn == Some(c) then 1 else 0)
  {
    var last := |conns| - 1;
    if i < last {
      SlotsSet(conns[..last], i, conn, c);
      assert conns[i := conn][..last] == conns[..last][i := conn];
    } else {
      assert conns[i := conn][..last] == conns[..last];
    }
  }

  lemma {:induction false} SlotsWithout(conns: seq<Option<Conn>>, i: nat, c: Conn)
    requires i < |conns|
    ensures HandleSlots(conns[..i] + conns[i + 1..], c) + (if conns[i] == Some(c) then 1 else 0) ==
      HandleSlots(conns, c)
  {
    var last := |conns| - 1;
    if i < last {
      SlotsWithout(conns[..last], i, c);
      assert (conns[..i] + conns[i + 1..])[..last - 1] == conns[..last][..i] + conns[..last][i + 1..];
    } else {
      assert conns[..i] + conns[i + 1..] == conns[..last];
    }
  }

  lemma SlotsMore(conns: seq<Option<Conn>>, conn: Option<Conn>, c: Conn)
    ensures HandleSlots(conns + [conn], c) == HandleSlots(conns, c) + if conn == Some(c) then 1 else 0
  {
    assert (conns + [conn])[..|conns|] == conns;
  }

  /** A queue with what a handle gives back. */
  function Back(queue: seq<Conn>, conn: Option<Conn>): seq<Conn> {
    queue + if conn.Some? then [conn.value] else []
  }

  lemma SlotsBack(queue: seq<Conn>, conn: Option<Conn>, c: Conn)
    ensures QueueSlots(Back(queue, conn), c) == QueueSlots(queue, c) + if conn == Some(c) then 1 else 0
  {
  }

  lemma FirstOut(queue: seq<Conn>, c: Conn)
    requires queue != []
    ensures QueueSlots(queue, c) == QueueSlots(queue[1..], c) + if queue[0] == c then 1 else 0
  {
    assert queue == [queue[0]] + queue[1..];
  }

  /** An empty handle more changes no owner. */
  lemma EmptyHandle(queue: seq<Conn>, conns: seq<Option<Conn>>, live: set<Conn>)
    requires OneOwner(queue, conns, live)
    ensures OneOwner(queue, conns + [None], live)
  {
    forall c ensures Slots(queue, conns + [None], c) == if c in live then 1 else 0 {
      SlotsMore(conns, None, c);
      assert Slots(queue, conns, c) == if c in live then 1 else 0;
    }
  }

  lemma MovedToNew(queue: seq<Conn>, conns: seq<Option<Conn>>, live: set<Conn>, j: nat)
    requires OneOwner(queue, conns, live) && j < |conns|
    ensures OneOwner(queue, conns[j := None] + [conns[j]], live)
  {
    forall c ensures Slots(queue, conns[j := None] + [conns[j]], c) == if c in live then 1 else 0 {
      SlotsSet(conns, j, None, c);
      SlotsMore(conns[j := None], conns[j], c);
      assert Slots(queue, conns, c) == if c in live then 1 else 0;
    }
  }

  lemma MovedOver(queue: seq<Conn>, conns: seq<Option<Conn>>, live: set<Conn>, i: nat, j: nat)
    requires OneOwner(queue, conns, live) && i < |conns| && j < |conns| && i != j
    ensures OneOwner(Back(queue, conns[i]), conns[i := conns[j]][j := None], live)
  {
    forall c ensures Slots(Back(queue, conns[i]), conns[i := conns[j]][j := None], c) == if c in live then 1 else 0 {
      SlotsBack(queue, conns[i], c);
      SlotsSet(conns, i, conns[j], c);
      SlotsSet(conns[i := conns[j]], j, None, c);
      assert Slots(queue, conns, c) == if c in live then 1 else 0;
    }
  }

  lemma Returned(queue: seq<Conn>, conns: seq<Option<Conn>>, live: set<Conn>, i: nat)
    requires OneOwner(queue, conns, live) && i < |conns|
    ensures OneOwner(Back(queue, conns[i]), conns[..i] + conns[i + 1..], live)
  {
    forall c ensures Slots(Back(queue, conns[i]), conns[..i] + conns[i + 1..], c) == if c in live then 1 else 0 {
      SlotsBack(queue, conns[i], c);
      SlotsWithout(conns, i, c);
      assert Slots(queue, conns, c) == if c in live then 1 else 0;
    }
  }

  lemma HandedOut(queue: seq<Conn>, conns: seq<Option<Conn>>, live: set<Conn>)
    requires OneOwner(queue, conns, live) && queue != []
    ensures OneOwner(queue[1..], conns + [Some(queue[0])], live)
  {
    forall c ensures Slots(queue[1..], conns + [Some(queue[0])], c) == if c in live then 1 else 0 {
      FirstOut(queue, c);
      SlotsMore(conns, Some(queue[0]), c);
      assert Slots(queue, conns, c) == if c in live then 1 else 0;
    }
  }

  /** The first connection in the queue is broken and gone. */
  lemma Broken(queue: seq<Conn>, conns: seq<Option<Conn>>, live: set<Conn>)
    requires OneOwner(queue, conns, live) && queue != []
    ensures queue[0] in live && OneOwner(queue[1..], conns, live - {queue[0]})
  {
    FirstOut(queue, queue[0]);
    assert Slots(queue, conns, queue[0]) == if queue[0] in live then 1 else 0;
    forall c ensures Slots(queue[1..], conns, c) == if c in live - {queue[0]} then 1 else 0 {
      FirstOut(queue, c);
      assert Slots(queue, conns, c) == if c in live then 1 else 0;
    }
  }

  /** A connection opened in its place goes to the handle. */
  lemma Replaced(queue: seq<Conn>, conns: seq<Option<Conn>>, live: set<Conn>, n: Conn)
    requires OneOwner(queue, conns, live) && n !in live
    ensures OneOwner(queue, conns + [Some(n)], live + {n})
  {
    forall c ensures Slots(queue, conns + [Some(n)], c) == if c in live + {n} then 1 else 0 {
      SlotsMore(conns, Some(n), c);
      assert Slots(queue, conns, c) == if c in live then 1 else 0;
    }
  }

  /** A connection opened for the pool goes to its queue. */
  lemma Pooled(queue: seq<Conn>, live: set<Conn>, n: Conn)
    requires OneOwner(queue, [], live) && n !in live
    ensures OneOwner(queue + [n], [], live + {n})
  {
    forall c ensures Slots(queue + [n], [], c) == if c in live + {n} then 1 else 0 {
      SlotsBack(queue, Some(n), c);
      assert Slots(queue, [], c) == if c in live then 1 else 0;
    }
  }

  // ---- The pool and its handles ----

  /** How a call that needs a connection ends: with a reply, with the exception of a
      failed replacement, or not yet, because it waits for somebody to return one. */
  datatype End = Replies | Throws | Waits

  ghost function Conns(handles: seq<ConnectionHandle>): (conns: seq<Option<Conn>>)
    reads handles
    ensures |conns| == |handles| && forall i :: 0 <= i < |conns| ==> conns[i] == handles[i].conn
  {
    seq(|handles|, i requires 0 <= i < |handles| reads handles => handles[i].conn)
  }

  ghost predicate Distinct(handles: seq<ConnectionHandle>) {
    forall i, j :: 0 <= i < j < |handles| ==> handles[i] != handles[j]
  }

  lemma ConnsWithout(handles: seq<ConnectionHandle>, i: nat)
    requires i < |handles|
    ensures Conns(handles[..i] + handles[i + 1..]) == Conns(handles)[..i] + Conns(handles)[i + 1..]
    ensures Distinct(handles) ==> Distinct(handles[..i] + handles[i + 1..])
    ensures forall h :: h in handles[..i] + handles[i + 1..] ==> h in handles
  {
  }

  lemma ConnsMore(handles: seq<ConnectionHandle>, h: ConnectionHandle)
    ensures Conns(handles + [h]) == Conns(handles) + [h.conn]
  {
    forall i | 0 <= i < |handles| ensures Conns(handles + [h])[i] == Conns(handles)[i] {
      assert (handles + [h])[i] == handles[i];
    }
  }

  /** The pool and all handles in existence own the live connections, each once. */
  ghost predicate Owned(p: ConnectionPool, handles: seq<ConnectionHandle>)
    reads p, handles
  {
    && OneOwner(p.available, Conns(handles), p.live)
    && |p.live| + p.lost == p.created
    && (forall c :: c in p.live ==> c < p.nextConn)
    && Distinct(handles)
    && (forall h :: h in handles && h.conn.Some? ==> h.pool == p)
  }

  class ConnectionHandle {
    var conn: Option<Conn>
    var pool: ConnectionPool?

    constructor (conn: Option<Conn>, pool: ConnectionPool?)
      ensures this.conn == conn && this.pool == pool
    {
      this.conn, this.pool := conn, pool;
    }

    /** The move constructor. */
    constructor Move(other: ConnectionHandle, ghost p: ConnectionPool, ghost handles: seq<ConnectionHandle>,
        ghost j: nat)
      requires Owned(p, handles) && j < |handles| && handles[j] == other
      modifies other
      ensures this !in handles && Owned(p, handles + [this])
      ensures conn == old(other.conn) && pool == old(other.pool) && other.conn.None? && other.pool == null
    {
      conn, pool := other.conn, other.pool;
      new;
      ghost var before := Conns(handles);
      MovedToNew(p.available, before, p.live, j);
      other.conn, other.pool := None, null;
      assert Conns(handles + [this]) == before[j := None] + [conn];
    }

    /** Move assignment, from the handle itself too; a connection it overwrites goes back first. */
    method Assign(other: ConnectionHandle, ghost p: ConnectionPool, ghost handles: seq<ConnectionHandle>,
        ghost i: nat, ghost j: nat)
      requires Owned(p, handles) && i < |handles| && handles[i] == this && j < |handles| && handles[j] == other
      modifies this, other, p
      ensures Owned(p, handles) && p.live == old(p.live) && p.lost == old(p.lost)
      ensures conn == old(other.conn) && pool == old(other.pool)
      ensures this != other ==> other.conn.None? && other.pool == null
      ensures p.available == if this != other then Back(old(p.available), old(conn)) else old(p.available)
    {
      if this != other {
        ghost var before := Conns(handles);
        MovedOver(p.available, before, p.live, i, j);
        if conn.Some? && pool != null {
          pool.Release(conn);
        }
        conn, pool := other.conn, other.pool;
        other.conn, other.pool := None, null;
        assert Conns(handles) == before[i := conn][j := None];
      }
    }

    /** The destructor; the handle is no more afterwards. */
    method Destroy(ghost p: ConnectionPool, ghost handles: seq<ConnectionHandle>, ghost i: nat)
      requires Owned(p, handles) && i < |handles| && handles[i] == this
      modifies p
      ensures Owned(p, handles[..i] + handles[i + 1..]) && p.live == old(p.live) && p.lost == old(p.lost)
      ensures p.available == Back(old(p.available), conn)
    {
      Returned(p.available, Conns(handles), p.live, i);
      ConnsWithout(handles, i);
      if conn.Some? && pool != null {
        pool.Release(conn);
      }
    }
  }

  class ConnectionPool {
    const size: nat
    var available: seq<Conn>
    var nextConn: nat
    ghost var live: set<Conn>
    ghost var created: nat
    ghost var lost: nat
    /** The number of times PQconnectdb was called. */
    ghost var attempts: nat

    constructor (size: nat)
      ensures Owned(this, []) && this.size == size && |available| == created <= size && lost == 0
      ensures attempts == size
    {
      this.size := size;
      available, nextConn, live, created, lost, attempts := [], 0, {}, 0, 0, 0;
      new;
      assert Conns([]) == [];
      for i := 0 to size
        invariant Owned(this, []) && |available| == created <= i && lost == 0 && attempts == i
      {
        OpenOne();
      }
    }

    /** One turn of the constructor's loop. */
    method OpenOne()
      requires Owned(this, [])
      modifies this
      ensures Owned(this, []) && lost == old(lost)
      ensures created - old(created) == |available| - |old(available)|
      ensures old(created) <= created <= old(created) + 1 && attempts == old(attempts) + 1
    {
      assert Conns([]) == [];
      var conn := CreateConnection();
      if conn.Some? {
        assert conn.value !in live && |live + {conn.value}| == |live| + 1;
        Pooled(available, live, conn.value);
        available := available + [conn.value];
        live, created := live + {conn.value}, created + 1;
      }
    }

    /** PQconnectdb may fail. */
    method CreateConnection() returns (conn: Option<Conn>)
      modifies this`nextConn, this`attempts
      ensures attempts == old(attempts) + 1
      ensures conn.Some? ==> conn.value == old(nextConn)
      ensures nextConn == old(nextConn) + if conn.Some? then 1 else 0
    {
      conn := None;
      attempts := attempts + 1;
      if * {
        conn := Some(nextConn);
        nextConn := nextConn + 1;
      }
    }

    /** PQreset did not help a broken connection: PQfinish, and one attempt to replace it. */
    method ReplaceBroken(ghost first: Conn, ghost conns: seq<Option<Conn>>) returns (conn: Option<Conn>)
      requires first in live && |live| + lost == created && forall c :: c in live ==> c < nextConn
      requires OneOwner(available, conns, live - {first})
      modifies this`nextConn, this`attempts, this`live, this`lost
      ensures conn.None? ==> OneOwner(available, conns, live)
      ensures conn.Some? ==> OneOwner(available, conns + [conn], live)
      ensures |live| + lost == created && lost == old(lost) + if conn.None? then 1 else 0
      ensures forall c :: c in live ==> c < nextConn
    {
      conn := CreateConnection();
      live := live - {first};
      if conn.Some? {
        Replaced(available, conns, live, conn.value);
        live := live + {conn.value};
      } else {
        lost := lost + 1;
      }
    }

    /** The connection at the head of the queue, or what replaces it when it is
        broken; None when it cannot be replaced. */
    method TakeFirst(ghost conns: seq<Option<Conn>>) returns (conn: Option<Conn>)
      requires OneOwner(available, conns, live) && |live| + lost == created && available != []
      requires forall c :: c in live ==> c < nextConn
      modifies this
      ensures available == old(available)[1..] && created == old(created)
      ensures conn.None? ==> OneOwner(available, conns, live)
      ensures conn.Some? ==> OneOwner(available, conns + [conn], live)
      ensures |live| + lost == created && lost == old(lost) + if conn.None? then 1 else 0
      ensures forall c :: c in live ==> c < nextConn
    {
      HandedOut(available, conns, live);
      Broken(available, conns, live);
      ghost var first := available[0];
      conn := Some(available[0]);
      available := available[1..];
      if * {
        conn := ReplaceBroken(first, conns);
      }
    }

    /** Waits exactly while the queue is empty, and takes nothing meanwhile; otherwise
        a handle on the first connection, or the exception. */
    method Acquire(ghost handles: seq<ConnectionHandle>) returns (end: End, h: Option<ConnectionHandle>)
      requires Owned(this, handles)
      modifies this
      ensures created == old(created) && (end.Waits? <==> old(available) == []) && (h.Some? <==> end.Replies?)
      ensures available == if end.Waits? then old(available) else old(available)[1..]
      ensures lost == old(lost) + if end.Throws? then 1 else 0
      ensures h.None? ==> Owned(this, handles)
      ensures h.Some? ==> fresh(h.value) && h.value.conn.Some? && Owned(this, handles + [h.value])
    {
      if available == [] {
        return Waits, None;
      }
      var conn := TakeFirst(Conns(handles));
      if conn.None? {
        return Throws, None;
      }
      var handle := new ConnectionHandle(conn, this);
      ConnsMore(handles, handle);
      return Replies, Some(handle);
    }

    /** An empty handle when the wait ends without a connection; a handle on no
        connection when the replacement fails. */
    method AcquireWithTimeout(ghost handles: seq<ConnectionHandle>) returns (h: ConnectionHandle)
      requires Owned(this, handles)
      modifies this
      ensures fresh(h) && Owned(this, handles + [h]) && created == old(created)
      ensures h.conn.Some? ==> old(available) != [] && available == old(available)[1..] && lost == old(lost)
      ensures h.conn.None? && h.pool == null ==> old(available) == [] == available && lost == old(lost)
      ensures h.conn.None? && h.pool != null ==>
        old(available) != [] && available == old(available)[1..] && lost == old(lost) + 1
    {
      if available == [] {
        EmptyHandle(available, Conns(handles), live);
        h := new ConnectionHandle(None, null);
        ConnsMore(handles, h);
        return;
      }
      var conn := TakeFirst(Conns(handles));
      if conn.None? {
        EmptyHandle(available, Conns(handles), live);
      }
      h := new ConnectionHandle(conn, this);
      ConnsMore(handles, h);
    }

    method Release(conn: Option<Conn>)
      modifies this`available
      ensures available == old(available) + if conn.Some? then [conn.value] else []
      ensures available == Back(old(available), conn)
    {
      if conn.Some? {
        available := available + [conn.value];
      }
    }
  }
}
