/** Deadlock: the server can only get stuck in a knot of renames. */
module Progress {
  import opened Catalog
  import opened Registry
  import opened Serving
  import opened Invariant

  /** Threads that hold a connection. */
  function Holders(pcs: seq<Pc>): nat {
    if pcs == [] then 0 else Holders(pcs[..|pcs| - 1]) + Uses(pcs[|pcs| - 1])
  }

  lemma {:induction false} SomeHolder(pcs: seq<Pc>) returns (i: nat)
    requires Holders(pcs) > 0
    ensures i < |pcs| && pcs[i].HasConn()
  {
    if pcs[|pcs| - 1].HasConn() {
      i := |pcs| - 1;
    } else {
      i := SomeHolder(pcs[..|pcs| - 1]);
    }
  }

  lemma {:induction false} HoldersUpdate(pcs: seq<Pc>, i: nat, pc: Pc)
    requires i < |pcs|
    ensures Holders(pcs[i := pc]) + Uses(pcs[i]) == Holders(pcs) + Uses(pc)
  {
    var init := pcs[..|pcs| - 1];
    if i == |pcs| - 1 {
      assert pcs[i := pc][..|pcs| - 1] == init;
    } else {
      HoldersUpdate(init, i, pc);
      assert pcs[i := pc][..|pcs| - 1] == init[i := pc];
    }
  }

  /** Live connections: in the pool or on some thread's stack. */
  function Connections(s: State): nat {
    s.free + Holders(s.pcs)
  }

  function Uses(pc: Pc): nat {
    if pc.HasConn() then 1 else 0
  }

  predicate Loses(s: State, a: Action)
    requires Enabled(s, a)
  {
    a.Go? && s.pcs[a.i].WaitsForConn() && !a.ok
  }

  /** What the moving thread takes it takes from the pool, and gives back to it. */
  lemma StepBalances(s: State, a: Action)
    requires Enabled(s, a) && !a.CounterMoves?
    ensures Next(s, a).free + Uses(Next(s, a).pcs[a.i]) + (if Loses(s, a) then 1 else 0) == s.free + Uses(s.pcs[a.i])
  {
    if a.Go? && s.pcs[a.i].Gated() {
      GateBalances(s, a.i, a.ok);
    } else if a.Go? {
      ReadBalances(s, a.i, a.ok, a.gap);
      CommitBalances(s, a.i, a.ok, a.gap);
      DdlBalances(s, a.i, a.ok, a.gap);
    }
  }

  /** What thread i takes from the pool or gives back to it. */
  ghost predicate Balanced(s: State, s': State, i: nat, ok: bool)
    requires i < |s.pcs| && i < |s'.pcs|
  {
    s'.free + Uses(s'.pcs[i]) + (if s.pcs[i].WaitsForConn() && !ok then 1 else 0) == s.free + Uses(s.pcs[i])
  }

  lemma GateBalances(s: State, i: nat, ok: bool)
    requires i < |s.pcs| && CanGo(s, i) && s.pcs[i].Gated()
    ensures Balanced(s, GateNext(s, i), i, ok)
  {
  }

  lemma ReadBalances(s: State, i: nat, ok: bool, gap: nat)
    requires i < |s.pcs| && MayWork(s, i)
    ensures Balanced(s, ReadNext(s, i, ok), i, ok) || !(s.pcs[i].ReadLock? || s.pcs[i].Shared() != {})
  {
  }

  lemma CommitBalances(s: State, i: nat, ok: bool, gap: nat)
    requires i < |s.pcs| && MayWork(s, i)
    ensures Balanced(s, CommitNext(s, i, ok, gap), i, ok) || ThreadNext(s, i, ok, gap) != CommitNext(s, i, ok, gap)
  {
  }

  lemma DdlBalances(s: State, i: nat, ok: bool, gap: nat)
    requires i < |s.pcs| && MayWork(s, i)
    ensures Balanced(s, DdlNext(s, i, ok, gap), i, ok) || ThreadNext(s, i, ok, gap) != DdlNext(s, i, ok, gap)
  {
  }

  /** A step keeps every live connection, except that an acquire whose replacement
      connection cannot be opened loses the one it took from the pool. */
  lemma ConnectionsConserved(s: State, a: Action)
    requires Enabled(s, a)
    ensures Connections(Next(s, a)) + (if Loses(s, a) then 1 else 0) == Connections(s)
  {
    if !a.CounterMoves? {
      OthersStay(s, a);
      StepBalances(s, a);
      HoldersUpdate(s.pcs, a.i, Next(s, a).pcs[a.i]);
    }
  }

  /** No request in progress can take its next step. */
  ghost predicate Stuck(s: State) {
    && (exists i :: 0 <= i < |s.pcs| && !s.pcs[i].Idle?)
    && (forall i :: 0 <= i < |s.pcs| ==> !CanGo(s, i))
  }

  /** The rename of thread i waits for a name that a member holds. */
  ghost predicate Tied(pcs: seq<Pc>, members: set<nat>, i: nat) {
    && i < |pcs| && pcs[i].DdlLockSecond? && pcs[i].gate.Waiting? && pcs[i].op.Rename?
    && exists j :: j in members && j < |pcs| && pcs[j].DdlLockSecond? && pcs[j].op.name == pcs[i].op.to
  }

  /** Renames that each hold one name and wait for a name a member holds. */
  ghost predicate Knot(pcs: seq<Pc>, members: set<nat>) {
    members != {} && forall i {:trigger Tied(pcs, members, i)} :: i in members ==> Tied(pcs, members, i)
  }

  /** A thread that holds or waits for a connection means someone can go. */
  lemma ConnectionsMove(s: State, i: nat)
    requires i < |s.pcs| && Connections(s) > 0 && (s.pcs[i].WaitsForConn() || s.pcs[i].HasConn())
    ensures exists j :: 0 <= j < |s.pcs| && CanGo(s, j)
  {
    if s.pcs[i].HasConn() {
      assert CanGo(s, i);
    } else if s.free > 0 {
      assert CanGo(s, i);
    } else {
      var j := SomeHolder(s.pcs);
      assert CanGo(s, j);
    }
  }

  /** In a stuck state every request in progress waits for a table's mutex. */
  lemma StuckThreadsWaitForLocks(s: State, i: nat)
    requires RegistryOk(s) && Stuck(s) && Connections(s) > 0 && i < |s.pcs|
    ensures s.pcs[i].Idle? || s.pcs[i].WaitsForLock()
    ensures s.pcs[i].Shared() == {}
    ensures s.pcs[i].Excl() == if s.pcs[i].DdlLockSecond? then {s.pcs[i].op.name} else {}
  {
    assert !CanGo(s, i);
    if s.registry.Some? {
      OwnerGivesBack(s, true, 0);
    }
    if s.pcs[i].WaitsForConn() || s.pcs[i].HasConn() {
      ConnectionsMove(s, i);
    }
  }

  /** With a live connection, a state with unfinished requests is stuck only if
      some renames form a knot; short of that, some step is always enabled. */
  lemma StuckOnlyInAKnot(s: State)
    requires Inv(s) && RegistryOk(s) && Connections(s) > 0 && Stuck(s)
    ensures exists members :: Knot(s.pcs, members)
  {
    var i :| 0 <= i < |s.pcs| && !s.pcs[i].Idle?;
    StuckThreadsWaitForLocks(s, i);
    assert !CanGo(s, i);
    var j := Blocker(s, i, s.pcs[i].Target());
    assert j in Seconds(s.pcs);
    StuckRenamesAreTied(s);
    assert Knot(s.pcs, Seconds(s.pcs));
  }

  /** The renames that have locked their first name and not their second. */
  function Seconds(pcs: seq<Pc>): set<nat> {
    set i: nat | i < |pcs| && pcs[i].DdlLockSecond?
  }

  lemma StuckRenamesAreTied(s: State)
    requires Inv(s) && RegistryOk(s) && Connections(s) > 0 && Stuck(s)
    ensures forall i :: i in Seconds(s.pcs) ==> Tied(s.pcs, Seconds(s.pcs), i)
  {
    forall i | i in Seconds(s.pcs) ensures Tied(s.pcs, Seconds(s.pcs), i) {
      StuckThreadsWaitForLocks(s, i);
      assert LocalOk(s.l, s.pcs[i]) && !CanGo(s, i);
      var j := Blocker(s, i, s.pcs[i].op.to);
      assert j in Seconds(s.pcs);
    }
  }

  /** Whoever blocks a waiter in a stuck state is a rename waiting for its second name. */
  lemma Blocker(s: State, i: nat, x: string) returns (j: nat)
    requires RegistryOk(s) && Stuck(s) && Connections(s) > 0 && i < |s.pcs|
    requires !FreeForShared(s, x) || !FreeForExclusive(s, x)
    ensures j < |s.pcs| && s.pcs[j].DdlLockSecond? && s.pcs[j].op.name == x
  {
    j :| 0 <= j < |s.pcs| && (x in s.pcs[j].Excl() || x in s.pcs[j].Shared());
    StuckThreadsWaitForLocks(s, j);
  }

  lemma KnotBlocks(s: State, members: set<nat>, i: nat)
    requires Knot(s.pcs, members) && i in members
    ensures i < |s.pcs| && !CanGo(s, i) && !s.pcs[i].Idle?
  {
    assert Tied(s.pcs, members, i);
    var j := HolderOf(s.pcs, members, i);
    assert s.pcs[i].op.to in s.pcs[j].Excl();
  }

  lemma SameMembersSameKnot(pcs: seq<Pc>, pcs': seq<Pc>, members: set<nat>)
    requires Knot(pcs, members) && |pcs'| == |pcs| && forall i :: i in members && i < |pcs| ==> pcs'[i] == pcs[i]
    ensures Knot(pcs', members)
  {
    forall i | i in members ensures Tied(pcs', members, i) {
      assert Tied(pcs, members, i);
      var j := HolderOf(pcs, members, i);
      assert Tied(pcs, members, j) && pcs'[j].op.name == pcs'[i].op.to;
    }
  }

  /** A knot never comes undone: its members are blocked in every later state. */
  lemma KnotPersists(s: State, a: Action, members: set<nat>)
    requires Knot(s.pcs, members) && Enabled(s, a)
    ensures Knot(Next(s, a).pcs, members)
  {
    OthersStay(s, a);
    forall i | i in members ensures i < |s.pcs| && Next(s, a).pcs[i] == s.pcs[i] {
      KnotBlocks(s, members, i);
    }
    SameMembersSameKnot(s.pcs, Next(s, a).pcs, members);
  }

  lemma {:induction false} KnotNeverFinishes(s: State, acts: seq<Action>, members: set<nat>)
    requires Knot(s.pcs, members) && Runs(s, acts)
    ensures Knot(After(s, acts).pcs, members)
    decreases |acts|
  {
    if acts != [] {
      KnotPersists(s, acts[0], members);
      KnotNeverFinishes(Next(s, acts[0]), acts[1..], members);
    }
  }

  // ---- Renames that lock in one order ----

  ghost predicate StrictOrder(less: (string, string) -> bool) {
    && (forall x :: !less(x, x))
    && (forall x, y, z :: less(x, y) && less(y, z) ==> less(x, z))
  }

  lemma {:induction false} SomeMaximal(less: (string, string) -> bool, names: set<string>) returns (top: string)
    requires StrictOrder(less) && names != {}
    ensures top in names && forall x :: x in names ==> !less(top, x)
    decreases |names|
  {
    var x :| x in names;
    if names == {x} {
      top := x;
    } else {
      var rest := SomeMaximal(less, names - {x});
      top := if less(rest, x) then x else rest;
      forall y | y in names ensures !less(top, y) {
        if y != x {
          assert y in names - {x};
        }
      }
    }
  }

  /** If every waiting rename goes upward in one strict order of the names, there is
      no knot, so with a live connection the state is not stuck. */
  lemma OrderedRenamesNeverStick(s: State, less: (string, string) -> bool)
    requires Inv(s) && RegistryOk(s) && Connections(s) > 0 && StrictOrder(less)
    requires forall i :: 0 <= i < |s.pcs| && s.pcs[i].DdlLockSecond? && s.pcs[i].op.Rename? ==>
      less(s.pcs[i].op.name, s.pcs[i].op.to)
    requires exists i :: 0 <= i < |s.pcs| && !s.pcs[i].Idle?
    ensures exists i :: 0 <= i < |s.pcs| && CanGo(s, i)
  {
    if forall i :: 0 <= i < |s.pcs| ==> !CanGo(s, i) {
      StuckOnlyInAKnot(s);
      var members :| Knot(s.pcs, members);
      OrderedRenamesTieNoKnot(s.pcs, less, members);
    }
  }

  function HeldName(pcs: seq<Pc>, i: nat): string {
    if i < |pcs| && pcs[i].DdlLockSecond? then pcs[i].op.name else ""
  }

  lemma OrderedRenamesTieNoKnot(pcs: seq<Pc>, less: (string, string) -> bool, members: set<nat>)
    requires StrictOrder(less)
    requires forall i :: 0 <= i < |pcs| && pcs[i].DdlLockSecond? && pcs[i].op.Rename? ==>
      less(pcs[i].op.name, pcs[i].op.to)
    ensures !Knot(pcs, members)
  {
    if Knot(pcs, members) {
      var names := set i | i in members :: HeldName(pcs, i);
      var some :| some in members;
      assert HeldName(pcs, some) in names;
      forall x | x in names ensures exists y :: y in names && less(x, y) {
        var i :| i in members && HeldName(pcs, i) == x;
        assert Tied(pcs, members, i);
        var j := HolderOf(pcs, members, i);
        assert HeldName(pcs, j) in names;
      }
      var top := SomeMaximal(less, names);
    }
  }

  lemma HolderOf(pcs: seq<Pc>, members: set<nat>, i: nat) returns (j: nat)
    requires Knot(pcs, members) && i in members && Tied(pcs, members, i)
    ensures j in members && Tied(pcs, members, j) && pcs[j].op.name == pcs[i].op.to
  {
    j :| j in members && j < |pcs| && pcs[j].DdlLockSecond? && pcs[j].op.name == pcs[i].op.to;
    assert Tied(pcs, members, j);
  }

  /** Two renames that have come to wait for their first names tie the knot when
      they cross; a rename of a table to its own name ties it alone. */
  lemma CrossingRenames(s: State, i: nat, j: nat, x: string, y: string) returns (acts: seq<Action>)
    requires i < |s.pcs| && j < |s.pcs| && i != j && x != y && s.registry.None?
    requires s.pcs[i] == DdlLock(Waiting, Rename(x, y)) && s.pcs[j] == DdlLock(Waiting, Rename(y, x))
    requires FreeForExclusive(s, x) && FreeForExclusive(s, y)
    ensures |acts| == 6 && Runs(s, acts) && Knot(After(s, acts).pcs, {i, j})
  {
    var s1 := FirstLock(s, i, x, y);
    assert FreeForExclusive(s1, y);
    var s2 := FirstLock(s1, j, y, x);
    var first := LockReached(s2, i);
    var s3 := After(s2, first);
    var second := LockReached(s3, j);
    KnotOfTwo(After(s3, second).pcs, i, j, x, y);
    RunOn(s2, first, second);
    RunFurther(s1, Go(j, true, 0), first + second);
    RunFurther(s, Go(i, true, 0), [Go(j, true, 0)] + (first + second));
    acts := [Go(i, true, 0)] + ([Go(j, true, 0)] + (first + second));
  }

  lemma FirstLock(s: State, i: nat, x: string, y: string) returns (s': State)
    requires i < |s.pcs| && s.pcs[i] == DdlLock(Waiting, Rename(x, y)) && FreeForExclusive(s, x)
    ensures Enabled(s, Go(i, true, 0)) && s' == Next(s, Go(i, true, 0)) == At(s, i, DdlLockSecond(Asking, Rename(x, y)))
  {
    s' := Next(s, Go(i, true, 0));
  }

  lemma KnotOfTwo(pcs: seq<Pc>, i: nat, j: nat, x: string, y: string)
    requires i < |pcs| && j < |pcs|
    requires pcs[i] == DdlLockSecond(Waiting, Rename(x, y)) && pcs[j] == DdlLockSecond(Waiting, Rename(y, x))
    ensures Knot(pcs, {i, j})
  {
    assert pcs[i].op.to == pcs[j].op.name && pcs[j].op.to == pcs[i].op.name;
    assert Tied(pcs, {i, j}, i) && Tied(pcs, {i, j}, j);
  }

  lemma RenameToItself(s: State, i: nat, x: string) returns (acts: seq<Action>)
    requires i < |s.pcs| && s.pcs[i] == DdlLock(Waiting, Rename(x, x)) && FreeForExclusive(s, x) && s.registry.None?
    ensures |acts| == 3 && Runs(s, acts) && Knot(After(s, acts).pcs, {i})
  {
    var s1 := Next(s, Go(i, true, 0));
    assert s1.pcs == s.pcs[i := DdlLockSecond(Asking, Rename(x, x))];
    var rest := LockReached(s1, i);
    RunFurther(s, Go(i, true, 0), rest);
    acts := [Go(i, true, 0)] + rest;
    assert Tied(After(s1, rest).pcs, {i}, i);
  }
}
