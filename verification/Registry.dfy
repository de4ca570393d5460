/** The two-level locking of the lock manager: one registry mutex in front of a
    mutex per table, in every state of every run. */
module Registry {
  import opened Options
  import opened Serving
  import opened Invariant

  /** The registry's owner is the one thread inside it. */
  ghost predicate OneOwner(s: State) {
    && (s.registry.Some? ==> s.registry.value < |s.pcs|)
    && (forall i :: 0 <= i < |s.pcs| ==> (s.pcs[i].OwnsRegistry() <==> s.registry == Some(i)))
  }

  /** A table that a thread has locked or waits to lock has a mutex. */
  ghost predicate Found(known: set<string>, pc: Pc) {
    && pc.Excl() <= known && pc.Shared() <= known
    && (pc.WaitsForLock() ==> pc.Target() in known)
  }

  ghost predicate RegistryOk(s: State) {
    && OneOwner(s)
    && (forall i :: 0 <= i < |s.pcs| ==> Found(s.known, s.pcs[i]))
    && (forall i :: 0 <= i < |s.pcs| && s.pcs[i].DdlReleaseSecond? ==> s.pcs[i].op.Rename?)
  }

  /** A step away from the registry leaves it alone and locks no new name. */
  ghost predicate LeavesRegistry(s: State, s': State, i: nat)
    requires i < |s.pcs|
  {
    && s'.registry == s.registry && s'.known == s.known && |s'.pcs| == |s.pcs|
    && Found(s.known, s'.pcs[i]) && !s'.pcs[i].OwnsRegistry()
    && (s'.pcs[i].DdlReleaseSecond? ==> s'.pcs[i].op.Rename?)
  }

  lemma ReadFinds(s: State, i: nat, ok: bool)
    requires i < |s.pcs| && MayWork(s, i) && Found(s.known, s.pcs[i]) && (s.pcs[i].ReadLock? || s.pcs[i].Shared() != {})
    ensures LeavesRegistry(s, ReadNext(s, i, ok), i)
  {
    ReadMoves(s, i, ok);
    ReadUngated(s, i, ok);
    if s.pcs[i].ReadLock? {
      ReadLocks(s, i, ok);
    } else {
      ReadHolds(s, i, ok);
    }
  }

  lemma ReadUngated(s: State, i: nat, ok: bool)
    requires i < |s.pcs| && MayWork(s, i) && (s.pcs[i].ReadLock? || s.pcs[i].Shared() != {})
    requires |ReadNext(s, i, ok).pcs| == |s.pcs|
    ensures
      var s' := ReadNext(s, i, ok);
      && s'.registry == s.registry && s'.known == s.known
      && !s'.pcs[i].OwnsRegistry() && !s'.pcs[i].Locks() && !s'.pcs[i].DdlReleaseSecond?
  {
  }

  lemma CommitFinds(s: State, i: nat, ok: bool, gap: nat)
    requires i < |s.pcs| && MayWork(s, i) && Found(s.known, s.pcs[i])
    requires ThreadNext(s, i, ok, gap) == CommitNext(s, i, ok, gap)
    ensures LeavesRegistry(s, CommitNext(s, i, ok, gap), i)
  {
  }

  lemma DdlFinds(s: State, i: nat, ok: bool, gap: nat)
    requires i < |s.pcs| && MayWork(s, i) && Found(s.known, s.pcs[i])
    requires ThreadNext(s, i, ok, gap) == DdlNext(s, i, ok, gap)
    ensures LeavesRegistry(s, DdlNext(s, i, ok, gap), i)
  {
  }

  lemma WorkFinds(s: State, i: nat, ok: bool, gap: nat)
    requires i < |s.pcs| && MayWork(s, i) && Found(s.known, s.pcs[i])
    ensures LeavesRegistry(s, ThreadNext(s, i, ok, gap), i)
  {
    if s.pcs[i].ReadLock? || s.pcs[i].Shared() != {} {
      ReadFinds(s, i, ok);
    } else if ThreadNext(s, i, ok, gap) == DdlNext(s, i, ok, gap) {
      DdlFinds(s, i, ok, gap);
    } else {
      CommitFinds(s, i, ok, gap);
    }
  }

  lemma GateFinds(s: State, i: nat)
    requires i < |s.pcs| && CanGo(s, i) && s.pcs[i].Gated() && RegistryOk(s)
    ensures RegistryOk(GateNext(s, i))
  {
    GateGuards(s, i);
    var pc, pc', s' := s.pcs[i], GateNext(s, i).pcs[i], GateNext(s, i);
    assert Found(s.known, pc);
    assert s.known <= s'.known;
    forall j | 0 <= j < |s'.pcs| ensures Found(s'.known, s'.pcs[j]) {
      assert Found(s.known, s.pcs[j]);
    }
  }

  lemma StepRegistry(s: State, a: Action)
    requires RegistryOk(s) && Enabled(s, a)
    ensures RegistryOk(Next(s, a))
  {
    OthersStay(s, a);
    if a.Go? && s.pcs[a.i].Gated() {
      GateFinds(s, a.i);
    } else if a.Go? {
      assert Found(s.known, s.pcs[a.i]);
      WorkFinds(s, a.i, a.ok, a.gap);
    }
  }

  lemma {:induction false} RunRegistry(s: State, acts: seq<Action>)
    requires RegistryOk(s) && Runs(s, acts)
    ensures RegistryOk(After(s, acts))
    decreases |acts|
  {
    if acts != [] {
      StepRegistry(s, acts[0]);
      RunRegistry(Next(s, acts[0]), acts[1..]);
    }
  }

  /** In every reachable state, whoever waits, for a table's mutex or for a
      connection, does not own the registry; at most one thread does. */
  lemma WaitersNeverOwnTheRegistry(threads: nat, capacity: nat, connections: nat, acts: seq<Action>, i: nat)
    requires Runs(Start(threads, capacity, connections), acts)
    ensures
      var s := After(Start(threads, capacity, connections), acts);
      && RegistryOk(s)
      && (i < |s.pcs| && (s.pcs[i].WaitsForLock() || s.pcs[i].WaitsForConn()) ==> s.registry != Some(i))
  {
    RunRegistry(Start(threads, capacity, connections), acts);
  }

  /** The owner can always go on, and gives the registry back in that step: it waits
      for nothing, and the mutex it unlocks is there. */
  lemma OwnerGivesBack(s: State, ok: bool, gap: nat)
    requires RegistryOk(s) && s.registry.Some?
    ensures
      var i := s.registry.value;
      && Enabled(s, Go(i, ok, gap)) && Next(s, Go(i, ok, gap)).registry.None?
      && Next(s, Go(i, ok, gap)).pcs[i] ==
         if s.pcs[i].Unlocks() then Unlocked(s.pcs[i]) else AtMutex(s.pcs[i])
  {
    var pc := s.pcs[s.registry.value];
    assert pc.OwnsRegistry();
    assert Found(s.known, pc);
  }

  /** So no release ever hangs, whatever other threads wait for: some run of at
      most three steps unlocks the mutex. */
  lemma ReleasesFinish(s: State, i: nat) returns (acts: seq<Action>)
    requires RegistryOk(s) && i < |s.pcs| && s.pcs[i].Unlocks()
    ensures |acts| <= 3 && Runs(s, acts) && |After(s, acts).pcs| == |s.pcs|
    ensures After(s, acts).pcs[i] == Unlocked(s.pcs[i])
  {
    var go := Go(i, true, 0);
    if s.pcs[i].owns {
      OwnerGivesBack(s, true, 0);
      OthersStay(s, go);
      RunFurther(s, go, []);
      acts := [go] + [];
    } else if s.registry.None? {
      acts := AskAndUnlock(s, i);
    } else {
      var other := Go(s.registry.value, true, 0);
      OwnerGivesBack(s, true, 0);
      OthersStay(s, other);
      StepRegistry(s, other);
      assert s.pcs[s.registry.value].OwnsRegistry() && s.registry.value != i;
      var rest := AskAndUnlock(Next(s, other), i);
      RunFurther(s, other, rest);
      acts := [other] + rest;
    }
  }

  lemma AskAndUnlock(s: State, i: nat) returns (acts: seq<Action>)
    requires RegistryOk(s) && i < |s.pcs| && s.pcs[i].Unlocks() && !s.pcs[i].owns && s.registry.None?
    ensures |acts| == 2 && Runs(s, acts) && After(s, acts) == s.(pcs := s.pcs[i := Unlocked(s.pcs[i])])
  {
    var go := Go(i, true, 0);
    var s1 := Next(s, go);
    StepRegistry(s, go);
    OwnerGivesBack(s1, true, 0);
    OthersStay(s1, go);
    RunFurther(s1, go, []);
    RunFurther(s, go, [go] + []);
    acts := [go] + ([go] + []);
  }

  /** A thread that starts to lock gets as far as waiting for the mutex itself. */
  lemma LockReached(s: State, i: nat) returns (acts: seq<Action>)
    requires i < |s.pcs| && s.pcs[i].Locks() && s.pcs[i].gate.Asking? && s.registry.None?
    ensures acts == [Go(i, true, 0), Go(i, true, 0)] && Runs(s, acts)
    ensures After(s, acts) == s.(pcs := s.pcs[i := AtMutex(s.pcs[i])], known := s.known + {s.pcs[i].Target()})
  {
    var go := Go(i, true, 0);
    var s1 := Next(s, go);
    RunFurther(s1, go, []);
    RunFurther(s, go, [go] + []);
    acts := [go] + ([go] + []);
  }

  /** An idle thread given a request gets as far as waiting for its table's mutex. */
  lemma RequestReached(s: State, i: nat, request: Pc) returns (acts: seq<Action>)
    requires i < |s.pcs| && s.pcs[i].Idle? && request.IsRequest() && s.registry.None?
    ensures Runs(s, acts)
    ensures After(s, acts) == s.(pcs := s.pcs[i := AtMutex(request)], known := s.known + {request.Target()})
  {
    var s1 := Next(s, Arrive(i, request));
    var locking := LockReached(s1, i);
    RunFurther(s, Arrive(i, request), locking);
    acts := [Arrive(i, request)] + locking;
  }

  // ---- Runs ----

  lemma RunFurther(s: State, a: Action, acts: seq<Action>)
    requires Enabled(s, a) && Runs(Next(s, a), acts)
    ensures Runs(s, [a] + acts) && After(s, [a] + acts) == After(Next(s, a), acts)
  {
    assert ([a] + acts)[1..] == acts;
  }

  /** A run, and another from where it ended. */
  lemma {:induction false} RunOn(s: State, first: seq<Action>, rest: seq<Action>)
    requires Runs(s, first) && Runs(After(s, first), rest)
    ensures Runs(s, first + rest) && After(s, first + rest) == After(After(s, first), rest)
    decreases |first|
  {
    if first == [] {
      assert first + rest == rest;
    } else {
      RunOn(Next(s, first[0]), first[1..], rest);
      assert (first + rest)[1..] == first[1..] + rest;
    }
  }
}
