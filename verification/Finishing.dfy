/** Every request finishes: without new arrivals the server takes finitely many
    more steps, and when no step is left, no request is, short of a knot of renames. */
module Finishing {
  import opened Progress
  import opened Registry
  import opened Serving
  import opened Invariant

  function Surplus(a: int, b: int): nat {
    if a > b then a - b else 0
  }

  function GateRank(gate: Gate): nat {
    match gate
    case Asking => 2
    case Owning => 1
    case Waiting => 0
  }

  function OwnRank(owns: bool): nat {
    if owns then 0 else 1
  }

  /** A bound on the steps a thread still takes for its request. */
  function Rank(pc: Pc): nat {
    match pc
    case Idle => 0
    case ReadLock(gate, _, _, _) => 11 + GateRank(gate)
    case ReadResolve(_, _, _) => 10
    case ReadPointerConn(_, _) => 9
    case ReadPointer(_, _) => 8
    case ReadLookup(_, _) => 7
    case ReadConn(_, _, _) => 6
    case ReadQuery(_, _, _) => 5
    case ReadPut(_, _, _) => 4
    case ReadDone(_, _, _, _, _) => 3
    case ReadRelease(owns, _) => 1 + OwnRank(owns)
    case CommitLock(gate, _, req) => 9 + GateRank(gate) + |req.added| + |req.deleted|
    case CommitConn(_, req) => 8 + |req.added| + |req.deleted|
    case CommitCheck(_, req) => 7 + |req.added| + |req.deleted|
    case CommitOpen(_, req, _) => 6 + |req.added| + |req.deleted|
    case CommitWrite(_, req, _, _, _, _, added, marked) =>
      5 + Surplus(|req.added|, |added|) + Surplus(|req.deleted|, marked)
    case CommitClear(_, _) => 4
    case CommitDone(_, _) => 3
    case CommitRelease(owns, _) => 1 + OwnRank(owns)
    case DdlLock(gate, _) => 12 + GateRank(gate)
    case DdlLockSecond(gate, _) => 9 + GateRank(gate)
    case DdlConn(_) => 8
    case DdlRun(_) => 7
    case DdlDone(_, _) => 6
    case DdlReleaseSecond(owns, _, _) => 4 + OwnRank(owns)
    case DdlRelease(owns, _, _) => 2 + OwnRank(owns)
    case DdlClear(_, _) => 1
  }

  predicate OfDdl(pc: Pc) {
    || pc.DdlLock? || pc.DdlLockSecond? || pc.DdlConn? || pc.DdlRun? || pc.DdlDone?
    || pc.DdlReleaseSecond? || pc.DdlRelease? || pc.DdlClear?
  }

  lemma GateLowers(s: State, i: nat)
    requires RegistryOk(s) && i < |s.pcs| && CanGo(s, i) && s.pcs[i].Gated() && |GateNext(s, i).pcs| == |s.pcs|
    ensures Rank(GateNext(s, i).pcs[i]) < Rank(s.pcs[i])
  {
    assert Found(s.known, s.pcs[i]);
  }

  lemma ReadLowers(s: State, i: nat, ok: bool)
    requires i < |s.pcs| && MayWork(s, i) && (s.pcs[i].ReadLock? || s.pcs[i].Shared() != {})
    requires |ReadNext(s, i, ok).pcs| == |s.pcs|
    ensures Rank(ReadNext(s, i, ok).pcs[i]) < Rank(s.pcs[i])
  {
  }

  lemma WriteLowers(s: State, i: nat, ok: bool, gap: nat)
    requires i < |s.pcs| && MayWork(s, i) && s.pcs[i].CommitWrite? && s.pcs[i].t in s.l.db.tables
    ensures Rank(CommitNext(s, i, ok, gap).pcs[i]) < Rank(s.pcs[i])
  {
  }

  lemma CommitLowers(s: State, i: nat, ok: bool, gap: nat)
    requires i < |s.pcs| && MayWork(s, i) && LocalOk(s.l, s.pcs[i]) && |CommitNext(s, i, ok, gap).pcs| == |s.pcs|
    requires s.pcs[i].CommitLock? || s.pcs[i].CommitConn? || s.pcs[i].CommitCheck? || s.pcs[i].CommitOpen?
             || s.pcs[i].CommitWrite? || s.pcs[i].CommitClear? || s.pcs[i].CommitDone?
    ensures Rank(CommitNext(s, i, ok, gap).pcs[i]) < Rank(s.pcs[i])
  {
    if s.pcs[i].CommitWrite? {
      WriteLowers(s, i, ok, gap);
    }
  }

  lemma DdlLowers(s: State, i: nat, ok: bool, gap: nat)
    requires i < |s.pcs| && MayWork(s, i) && |DdlNext(s, i, ok, gap).pcs| == |s.pcs|
    requires s.pcs[i].DdlLock? || s.pcs[i].DdlLockSecond? || s.pcs[i].DdlConn? || s.pcs[i].DdlRun?
             || s.pcs[i].DdlDone? || s.pcs[i].DdlClear?
    ensures Rank(DdlNext(s, i, ok, gap).pcs[i]) < Rank(s.pcs[i])
  {
  }

  /** Every step of a thread brings its request nearer its end. */
  lemma GoLowersRank(s: State, i: nat, ok: bool, gap: nat)
    requires Inv(s) && RegistryOk(s) && i < |s.pcs| && CanGo(s, i)
    ensures
      var pcs' := Next(s, Go(i, ok, gap)).pcs;
      |pcs'| == |s.pcs| && pcs' == s.pcs[i := pcs'[i]] && Rank(pcs'[i]) < Rank(s.pcs[i])
  {
    var pc := s.pcs[i];
    assert LocalOk(s.l, pc);
    OthersStay(s, Go(i, ok, gap));
    if pc.Gated() {
      GateLowers(s, i);
    } else if pc.ReadLock? || pc.Shared() != {} {
      ReadLowers(s, i, ok);
    } else if OfDdl(pc) {
      DdlLowers(s, i, ok, gap);
    } else {
      CommitLowers(s, i, ok, gap);
    }
  }

  function Total(pcs: seq<Pc>): nat {
    if pcs == [] then 0 else Total(pcs[..|pcs| - 1]) + Rank(pcs[|pcs| - 1])
  }

  lemma {:induction false} TotalUpdate(pcs: seq<Pc>, i: nat, pc: Pc)
    requires i < |pcs|
    ensures Total(pcs[i := pc]) + Rank(pcs[i]) == Total(pcs) + Rank(pc)
  {
    var init := pcs[..|pcs| - 1];
    if i == |pcs| - 1 {
      assert pcs[i := pc][..|pcs| - 1] == init;
    } else {
      TotalUpdate(init, i, pc);
      assert pcs[i := pc][..|pcs| - 1] == init[i := pc];
    }
  }

  /** No new request arrives; transactions may go on committing. */
  predicate NoArrivals(acts: seq<Action>) {
    forall k :: 0 <= k < |acts| ==> !acts[k].Arrive?
  }

  /** The steps that handler threads take in a run. */
  function Steps(acts: seq<Action>): nat {
    if acts == [] then 0 else (if acts[0].Go? then 1 else 0) + Steps(acts[1..])
  }

  lemma ArrivalsRest(acts: seq<Action>)
    requires acts != [] && NoArrivals(acts)
    ensures !acts[0].Arrive? && NoArrivals(acts[1..])
  {
    assert forall k :: 0 <= k < |acts[1..]| ==> acts[1..][k] == acts[k + 1];
  }

  lemma StepLowersTotal(s: State, a: Action)
    requires Inv(s) && RegistryOk(s) && Enabled(s, a) && !a.Arrive?
    ensures Total(Next(s, a).pcs) + (if a.Go? then 1 else 0) <= Total(s.pcs)
  {
    if a.Go? {
      GoLowersRank(s, a.i, a.ok, a.gap);
      TotalUpdate(s.pcs, a.i, Next(s, a).pcs[a.i]);
    }
  }

  /** Without new arrivals there are only so many steps, whatever fails or works. */
  lemma {:induction false} RunsAreFinite(s: State, acts: seq<Action>)
    requires Inv(s) && RegistryOk(s) && Runs(s, acts) && NoArrivals(acts)
    ensures Steps(acts) + Total(After(s, acts).pcs) <= Total(s.pcs)
    decreases |acts|
  {
    if acts != [] {
      ArrivalsRest(acts);
      StepInv(s, acts[0]);
      StepRegistry(s, acts[0]);
      StepLowersTotal(s, acts[0]);
      RunsAreFinite(Next(s, acts[0]), acts[1..]);
    }
  }

  // ---- How they end ----

  predicate InOrder(pc: Pc, less: (string, string) -> bool) {
    OfDdl(pc) && pc.op.Rename? ==> less(pc.op.name, pc.op.to)
  }

  /** All renames under way go upward in one order of names. */
  ghost predicate Ordered(pcs: seq<Pc>, less: (string, string) -> bool) {
    forall i :: 0 <= i < |pcs| ==> InOrder(pcs[i], less)
  }

  lemma GateKeepsOrder(s: State, i: nat, less: (string, string) -> bool)
    requires i < |s.pcs| && CanGo(s, i) && s.pcs[i].Gated() && |GateNext(s, i).pcs| == |s.pcs|
    requires InOrder(s.pcs[i], less)
    ensures InOrder(GateNext(s, i).pcs[i], less)
  {
  }

  lemma WorkKeepsOrder(s: State, i: nat, ok: bool, gap: nat, less: (string, string) -> bool)
    requires i < |s.pcs| && MayWork(s, i) && |ThreadNext(s, i, ok, gap).pcs| == |s.pcs| && InOrder(s.pcs[i], less)
    ensures InOrder(ThreadNext(s, i, ok, gap).pcs[i], less)
  {
    if s.pcs[i].ReadLock? || s.pcs[i].Shared() != {} {
      ReadIsNoDdl(s, i, ok);
    } else if ThreadNext(s, i, ok, gap) == CommitNext(s, i, ok, gap) {
      CommitIsNoDdl(s, i, ok, gap);
    } else {
      DdlKeepsOp(s, i, ok, gap);
    }
  }

  lemma ReadIsNoDdl(s: State, i: nat, ok: bool)
    requires i < |s.pcs| && MayWork(s, i) && (s.pcs[i].ReadLock? || s.pcs[i].Shared() != {})
    requires |ReadNext(s, i, ok).pcs| == |s.pcs|
    ensures !OfDdl(ReadNext(s, i, ok).pcs[i])
  {
  }

  lemma CommitIsNoDdl(s: State, i: nat, ok: bool, gap: nat)
    requires i < |s.pcs| && MayWork(s, i) && |CommitNext(s, i, ok, gap).pcs| == |s.pcs|
    ensures !OfDdl(CommitNext(s, i, ok, gap).pcs[i]) || CommitNext(s, i, ok, gap).pcs[i] == s.pcs[i]
  {
  }

  lemma DdlKeepsOp(s: State, i: nat, ok: bool, gap: nat)
    requires i < |s.pcs| && MayWork(s, i) && OfDdl(s.pcs[i]) && |DdlNext(s, i, ok, gap).pcs| == |s.pcs|
    ensures OfDdl(DdlNext(s, i, ok, gap).pcs[i]) ==> DdlNext(s, i, ok, gap).pcs[i].op == s.pcs[i].op
  {
  }

  lemma StepKeepsOrder(s: State, a: Action, less: (string, string) -> bool)
    requires Enabled(s, a) && !a.Arrive? && Ordered(s.pcs, less)
    ensures Ordered(Next(s, a).pcs, less)
  {
    OthersStay(s, a);
    if a.Go? {
      assert InOrder(s.pcs[a.i], less);
      if s.pcs[a.i].Gated() {
        GateKeepsOrder(s, a.i, less);
      } else {
        WorkKeepsOrder(s, a.i, a.ok, a.gap, less);
      }
    }
  }

  lemma {:induction false} RunKeepsOrder(s: State, acts: seq<Action>, less: (string, string) -> bool)
    requires Runs(s, acts) && NoArrivals(acts) && Ordered(s.pcs, less)
    ensures Ordered(After(s, acts).pcs, less)
    decreases |acts|
  {
    if acts != [] {
      ArrivalsRest(acts);
      StepKeepsOrder(s, acts[0], less);
      RunKeepsOrder(Next(s, acts[0]), acts[1..], less);
    }
  }

  ghost predicate AllIdle(pcs: seq<Pc>) {
    forall i :: 0 <= i < |pcs| ==> pcs[i].Idle?
  }

  /** A run without arrivals that no thread can continue has finished every request, if
      the renames under way go upward in one order and a live connection is left. */
  lemma MaximalRunsFinish(s: State, acts: seq<Action>, less: (string, string) -> bool)
    requires Inv(s) && RegistryOk(s) && StrictOrder(less) && Ordered(s.pcs, less)
    requires Runs(s, acts) && NoArrivals(acts) && Connections(After(s, acts)) > 0
    requires forall i :: 0 <= i < |After(s, acts).pcs| ==> !CanGo(After(s, acts), i)
    ensures AllIdle(After(s, acts).pcs)
  {
    var s' := After(s, acts);
    RunInv(s, acts);
    RunRegistry(s, acts);
    RunKeepsOrder(s, acts, less);
    EndIsIdle(s', less);
  }

  lemma EndIsIdle(s: State, less: (string, string) -> bool)
    requires Inv(s) && RegistryOk(s) && StrictOrder(less) && Ordered(s.pcs, less) && Connections(s) > 0
    ensures AllIdle(s.pcs) || exists i :: 0 <= i < |s.pcs| && CanGo(s, i)
  {
    if !AllIdle(s.pcs) {
      forall i | 0 <= i < |s.pcs| && s.pcs[i].DdlLockSecond? && s.pcs[i].op.Rename?
        ensures less(s.pcs[i].op.name, s.pcs[i].op.to)
      {
        assert InOrder(s.pcs[i], less);
      }
      OrderedRenamesNeverStick(s, less);
    }
  }

  /** Until all are idle there is a step that works and brings the end nearer. */
  lemma StepOnward(s: State, less: (string, string) -> bool) returns (a: Action, s': State)
    requires Inv(s) && RegistryOk(s) && StrictOrder(less) && Ordered(s.pcs, less) && Connections(s) > 0
    requires !AllIdle(s.pcs)
    ensures Enabled(s, a) && !a.Arrive? && s' == Next(s, a) && Total(s'.pcs) < Total(s.pcs)
    ensures Inv(s') && RegistryOk(s') && Ordered(s'.pcs, less) && Connections(s') > 0
  {
    EndIsIdle(s, less);
    var i :| 0 <= i < |s.pcs| && CanGo(s, i);
    a := Go(i, true, 0);
    s' := Next(s, a);
    StepInv(s, a);
    StepRegistry(s, a);
    StepKeepsOrder(s, a, less);
    StepLowersTotal(s, a);
    ConnectionsConserved(s, a);
  }

  /** And there is such a run: nothing but steps that work, and every request is finished. */
  lemma {:induction false} EveryRequestFinishes(s: State, less: (string, string) -> bool) returns (acts: seq<Action>)
    requires Inv(s) && RegistryOk(s) && StrictOrder(less) && Ordered(s.pcs, less) && Connections(s) > 0
    ensures Runs(s, acts) && NoArrivals(acts) && AllIdle(After(s, acts).pcs)
    decreases Total(s.pcs)
  {
    acts := [];
    if !AllIdle(s.pcs) {
      var a, s' := StepOnward(s, less);
      var rest := EveryRequestFinishes(s', less);
      RunFurther(s, a, rest);
      acts := [a] + rest;
    }
  }
}
