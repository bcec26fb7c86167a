/** Facts about every run of the executor's step system: bounded channels,
    bounded length, no deadlock, and the outcome all interleavings agree on. */
module Interleavings {
  import opened Graphs
  import opened Schedule

  ghost predicate Run(adj: Adjacency, conc: nat, prior: Results, run: seq<Sched>) {
    && |run| > 0 && Init(adj, prior, run[0])
    && forall i, j :: 0 <= i && j == i + 1 && j < |run| ==> Next(adj, conc, run[i], run[j])
  }

  ghost predicate Spread(adj: Adjacency, s: Sched) {
    FailuresSpread(adj, Lost(s.ledger), Settled(s.ledger))
  }

  lemma {:induction false} RunInv(adj: Adjacency, conc: nat, prior: Results, run: seq<Sched>)
    requires Closed(adj) && Run(adj, conc, prior, run)
    ensures Inv(adj, conc, prior, run[|run| - 1])
    ensures NoStaleDependents(adj, prior) ==> Spread(adj, run[|run| - 1])
  {
    hide Inv, Init, Next, NoStaleDependents, FailuresSpread;
    if |run| == 1 {
      InitInv(adj, conc, prior, run[0]);
    } else {
      var n := |run| - 1;
      RunInv(adj, conc, prior, run[..n]);
      NextInv(adj, conc, prior, run[n - 1], run[n]);
    }
  }

  lemma RunExtend(adj: Adjacency, conc: nat, prior: Results, run: seq<Sched>, s: Sched)
    requires Run(adj, conc, prior, run) && Next(adj, conc, run[|run| - 1], s)
    ensures Run(adj, conc, prior, run + [s])
  {
    hide Next, Init;
  }

  // ----- Bounds

  lemma {:induction false} DoneIdsLength(done: seq<NodeResult>)
    ensures |DoneIds(done)| == |done|
  {
    if done != [] {
      DoneIdsLength(done[1..]);
    }
  }

  lemma ActiveSize(s: Sched)
    ensures |Active(s)| == |s.ready| + |HeldBag(s.held)| + |s.running| + |s.done|
  {
    DoneIdsLength(s.done);
    assert |multiset(s.ready)| == |s.ready|;
    assert |multiset(DoneIds(s.done))| == |DoneIds(s.done)|;
  }

  lemma FlightSize(adj: Adjacency, active: multiset<NodeID>, settled: set<NodeID>)
    requires InFlight(adj, active, settled)
    ensures |active| + |settled| <= |adj.Keys|
  {
    var rest := adj.Keys - settled;
    assert active <= multiset(rest);
    assert multiset(rest) == active + (multiset(rest) - active);
    assert |multiset(rest)| == |rest|;
    assert adj.Keys == settled + rest;
  }

  /** Both channels were made with room for every node: no send ever blocks. */
  lemma ChannelsNeverFill(adj: Adjacency, conc: nat, prior: Results, run: seq<Sched>)
    requires Closed(adj) && Run(adj, conc, prior, run)
    ensures |run[|run| - 1].ready| <= |adj.Keys|
    ensures |run[|run| - 1].done| + |run[|run| - 1].running| <= |adj.Keys|
    ensures |run[|run| - 1].running| + run[|run| - 1].releasing <= conc
  {
    var s := run[|run| - 1];
    RunInv(adj, conc, prior, run);
    FlightSize(adj, Active(s), Settled(s.ledger));
    ActiveSize(s);
  }

  ghost function Weight(s: Sched): nat {
    5 * |s.ready| + 4 * |HeldBag(s.held)| + 3 * |s.running| + |s.done| + s.releasing
  }

  /** Steps left: 6 for a node still waiting, less for one further along. */
  ghost function Fuel(adj: Adjacency, s: Sched): int {
    6 * (|adj.Keys| - |Settled(s.ledger)| - |Active(s)|) + Weight(s)
  }

  lemma FinishWeight(s: Sched, r: NodeResult, s': Sched)
    requires FinishStep(s, r, s')
    ensures Weight(s') < Weight(s)
  {
    assert |s.running| == |s'.running| + 1 by {
      assert s.running == s'.running + multiset{r.nodeID};
    }
  }

  lemma WorkerWeight(conc: nat, s: Sched, s': Sched)
    requires WorkerStep(conc, s, s')
    ensures Weight(s') < Weight(s)
  {
    if TakeStep(s, s') {
    } else if LaunchStep(conc, s, s') {
    } else if ExitStep(s, s') {
    } else {
      var r :| FinishStep(s, r, s');
      FinishWeight(s, r, s');
    }
  }

  lemma WorkerFuel(adj: Adjacency, conc: nat, s: Sched, s': Sched)
    requires WorkerStep(conc, s, s') && Active(s') == Active(s) && s'.ledger == s.ledger
    ensures Fuel(adj, s') < Fuel(adj, s)
  {
    hide Weight, WorkerStep;
    WorkerWeight(conc, s, s');
  }

  lemma FailedFuel(adj: Adjacency, conc: nat, prior: Results, s: Sched, s': Sched)
    requires Closed(adj) && Inv(adj, conc, prior, s) && MainFailed(adj, s, s')
    ensures Fuel(adj, s') < Fuel(adj, s)
    ensures |Settled(s'.ledger)| > |Settled(s.ledger)|
  {
    MainFailedInv(adj, conc, prior, s, s');
    FailedSets(s.ledger, s.done[0], s'.ledger, Skips(adj, s.ledger, s.done[0]));
    ActiveSize(s);
    ActiveSize(s');
    hide Inv, Skips, SettleSkips, Active;
    assert Settled(s.ledger) + {s.done[0].nodeID} <= Settled(s'.ledger);
    SubsetCardinality(Settled(s.ledger) + {s.done[0].nodeID}, Settled(s'.ledger));
  }

  lemma DoneFuel(adj: Adjacency, conc: nat, prior: Results, s: Sched, freed: seq<NodeID>, s': Sched)
    requires Inv(adj, conc, prior, s) && MainDone(adj, s, freed, s')
    ensures Fuel(adj, s') < Fuel(adj, s)
    ensures |Settled(s'.ledger)| > |Settled(s.ledger)|
  {
    TakeDone(s);
    FlightOf(adj, Active(s), Settled(s.ledger), s.done[0].nodeID);
    hide Inv;
    MainDoneInv(adj, conc, prior, s, freed, s');
    hide Active;
    ActiveSize(s);
    ActiveSize(s');
  }

  /** Every step uses up fuel, and every main-loop step settles a node. */
  lemma StepFuel(adj: Adjacency, conc: nat, prior: Results, s: Sched, s': Sched)
    requires Closed(adj) && Inv(adj, conc, prior, s) && Next(adj, conc, s, s')
    ensures Fuel(adj, s') < Fuel(adj, s)
    ensures |Settled(s'.ledger)| >= |Settled(s.ledger)| + if MainStep(adj, s, s') then 1 else 0
  {
    hide Inv, MainDone, MainFailed, WorkerStep, Fuel, Settled;
    if MainFailed(adj, s, s') {
      FailedFuel(adj, conc, prior, s, s');
    } else if MainStep(adj, s, s') {
      var freed :| MainDone(adj, s, freed, s');
      DoneFuel(adj, conc, prior, s, freed, s');
    } else {
      WorkerStepInv(adj, conc, prior, s, s');
      WorkerFuel(adj, conc, s, s');
    }
  }

  ghost function MainSteps(adj: Adjacency, run: seq<Sched>): nat {
    if |run| < 2 then 0
    else MainSteps(adj, run[..|run| - 1]) + if MainStep(adj, run[|run| - 2], run[|run| - 1]) then 1 else 0
  }

  lemma {:induction false} RunFuel(adj: Adjacency, conc: nat, prior: Results, run: seq<Sched>)
    requires Closed(adj) && Run(adj, conc, prior, run)
    ensures Fuel(adj, run[|run| - 1]) + |run| - 1 <= 6 * |adj.Keys|
    ensures MainSteps(adj, run) <= |Settled(run[|run| - 1].ledger)|
  {
    hide Next, MainStep, Fuel;
    if |run| == 1 {
      InitFuel(adj, prior, run[0]);
    } else {
      var n := |run| - 1;
      RunFuel(adj, conc, prior, run[..n]);
      RunInv(adj, conc, prior, run[..n]);
      StepFuel(adj, conc, prior, run[n - 1], run[n]);
    }
  }

  lemma InitFuel(adj: Adjacency, prior: Results, s: Sched)
    requires Init(adj, prior, s)
    ensures Fuel(adj, s) <= 6 * |adj.Keys|
  {
    ActiveSize(s);
    assert Settled(s.ledger) == {};
  }

  /** Every run stops: at most six steps and one main-loop iteration per node. */
  lemma RunsAreBounded(adj: Adjacency, conc: nat, prior: Results, run: seq<Sched>)
    requires Closed(adj) && Run(adj, conc, prior, run)
    ensures |run| - 1 <= 6 * |adj.Keys|
    ensures MainSteps(adj, run) <= |adj.Keys|
  {
    var s := run[|run| - 1];
    RunFuel(adj, conc, prior, run);
    RunInv(adj, conc, prior, run);
    FlightSize(adj, Active(s), Settled(s.ledger));
    ActiveSize(s);
  }

  // ----- Progress

  /** Something can still move. */
  ghost predicate Busy(s: Sched) {
    s.ready != [] || s.held.Holding? || |s.running| > 0 || s.releasing > 0 || s.done != []
  }

  ghost predicate Stuck(adj: Adjacency, conc: nat, s: Sched) {
    s.ledger.remaining > 0 && forall s' :: !Next(adj, conc, s, s')
  }

  lemma {:induction false} Enumerate(s: set<NodeID>) returns (q: seq<NodeID>)
    ensures NoDup(q) && Elems(q) == s
  {
    if s == {} {
      q := [];
    } else {
      var x :| x in s;
      var rest := Enumerate(s - {x});
      assert x !in Elems(rest);
      q := [x] + rest;
      forall i, j | 0 <= i < j < |q| ensures q[i] != q[j] {
        assert q[j] in Elems(rest);
      }
      assert Elems(q) == {x} + Elems(rest);
    }
  }

  lemma MainCanFail(adj: Adjacency, s: Sched)
    requires s.done != [] && s.done[0].status == Failed
    ensures exists s' :: MainFailed(adj, s, s')
  {
    hide Skips, WithSkips;
    var l, r := s.ledger, s.done[0];
    var skips := Skips(adj, l, r);
    var l' := Ledger(WithSkips(l.results[r.nodeID := r], skips, r.nodeID), l.inDegree, l.remaining - 1 - |skips|,
                     l.succeeded, l.failed + {r.nodeID}, l.skipped + skips);
    var s' := s.(ledger := l', done := s.done[1..]);
    assert MainFailed(adj, s, s');
  }

  lemma FreedExists(degree: map<NodeID, int>, degree': map<NodeID, int>) returns (freed: seq<NodeID>)
    requires degree'.Keys == degree.Keys
    ensures Freed(degree, degree', freed)
  {
    freed := Enumerate(set x | x in degree && degree[x] > 0 >= degree'[x]);
    assert forall x :: x in freed <==> x in Elems(freed);
  }

  lemma MainCanFree(adj: Adjacency, s: Sched)
    requires s.done != [] && s.done[0].status != Failed && s.ledger.inDegree.Keys == adj.Keys
    ensures exists freed, s' :: MainDone(adj, s, freed, s')
  {
    var l, r := s.ledger, s.done[0];
    var degree := map x | x in adj :: l.inDegree[x] - multiset(adj[x])[r.nodeID];
    assert Decremented(adj, l.inDegree, r.nodeID, degree);
    var freed := FreedExists(l.inDegree, degree);
    hide Decremented, Freed;
    var l' := Ledger(l.results[r.nodeID := r], degree, l.remaining - 1, l.succeeded + {r.nodeID}, l.failed, l.skipped);
    var s' := s.(ledger := l', ready := s.ready + freed, done := s.done[1..]);
    assert MainDone(adj, s, freed, s');
  }

  /** The main loop can always process a received result. */
  lemma MainCanStep(adj: Adjacency, s: Sched)
    requires s.done != [] && s.ledger.inDegree.Keys == adj.Keys
    ensures exists s' :: MainStep(adj, s, s')
  {
    hide MainFailed, MainDone;
    if s.done[0].status == Failed {
      MainCanFail(adj, s);
      var s' :| MainFailed(adj, s, s');
      assert MainStep(adj, s, s');
    } else {
      MainCanFree(adj, s);
      var freed, s' :| MainDone(adj, s, freed, s');
      assert MainStep(adj, s, s');
    }
  }

  lemma WorkerCanStep(conc: nat, s: Sched)
    requires conc >= 1 && s.done == [] && Busy(s)
    ensures exists s' :: WorkerStep(conc, s, s')
  {
    if s.releasing > 0 {
      assert WorkerStep(conc, s, s.(releasing := s.releasing - 1));
    } else if |s.running| > 0 {
      var id :| id in s.running;
      var r := NodeResult(id, Done, "");
      var s' := s.(running := s.running - multiset{id}, done := s.done + [r], releasing := s.releasing + 1);
      assert FinishStep(s, r, s');
      assert WorkerStep(conc, s, s');
    } else if s.held.Holding? {
      assert WorkerStep(conc, s, s.(held := Nobody, running := s.running + multiset{s.held.id},
                                    launched := s.launched + multiset{s.held.id}));
    } else {
      assert WorkerStep(conc, s, s.(ready := s.ready[1..], held := Holding(s.ready[0])));
    }
  }

  lemma BusyCanStep(adj: Adjacency, conc: nat, s: Sched)
    requires conc >= 1 && s.ledger.inDegree.Keys == adj.Keys
    ensures Busy(s) <==> exists s' :: Next(adj, conc, s, s')
  {
    if Busy(s) {
      if s.done != [] {
        MainCanStep(adj, s);
        var s' :| MainStep(adj, s, s');
        assert Next(adj, conc, s, s');
      } else {
        WorkerCanStep(conc, s);
        var s' :| WorkerStep(conc, s, s');
        assert Next(adj, conc, s, s');
      }
    }
  }

  lemma ActiveIsBusy(s: Sched)
    ensures |Active(s)| > 0 ==> Busy(s)
  {
    ActiveSize(s);
  }

  lemma UnsettledExists(adj: Adjacency, l: Ledger)
    requires l.remaining == |adj.Keys| - |Settled(l)| && l.remaining > 0
    ensures exists x :: x in adj && x !in Settled(l)
  {
    if forall x :: x in adj ==> x in Settled(l) {
      SubsetCardinality(adj.Keys, Settled(l));
    }
  }

  /** While a node is unsettled, something is on its way to the main loop. */
  lemma Progress(adj: Adjacency, prior: Results, l: Ledger, active: multiset<NodeID>)
    requires Closed(adj) && !Cyclic(adj)
    requires Books(adj, prior, l, active) && FailuresSpread(adj, Lost(l), Settled(l))
    requires l.remaining > 0
    ensures |active| > 0
  {
    hide Recorded, InFlight, SkipsJustified, Cyclic;
    UnsettledExists(adj, l);
    var rest := set x | x in adj && x !in Settled(l);
    var u :| u in adj && u !in Settled(l);
    assert u in rest;
    var x := MinimalNode(adj, rest);
    assert x in adj && x !in Settled(l);
    forall d | d in adj[x] ensures d in l.succeeded {
      assert Edge(adj, x, d);
      assert d in Settled(l);
      assert d !in Lost(l);
    }
    PendingZero(adj[x], l.succeeded);
    assert l.inDegree[x] == 0;
    assert x in active;
  }

  /** On validated graphs without stale dependents no interleaving deadlocks. */
  lemma NoDeadlock(adj: Adjacency, conc: nat, prior: Results, run: seq<Sched>)
    requires Closed(adj) && !Cyclic(adj) && conc >= 1 && NoStaleDependents(adj, prior)
    requires Run(adj, conc, prior, run)
    ensures !Stuck(adj, conc, run[|run| - 1])
  {
    var s := run[|run| - 1];
    RunInv(adj, conc, prior, run);
    hide Next, FailuresSpread, NoStaleDependents, Run;
    if s.ledger.remaining > 0 {
      Progress(adj, prior, s.ledger, Active(s));
      ActiveIsBusy(s);
      BusyCanStep(adj, conc, s);
    }
  }

  // ----- Stale results

  /** In a run where every execution fails, a dependent that already had a
      result is neither skipped nor run. */
  ghost predicate Stalled(adj: Adjacency, s: Sched, x: NodeID) {
    && x in s.ledger.results && x !in Settled(s.ledger)
    && s.ledger.succeeded == {} && (forall r :: r in s.done ==> r.status == Failed)
  }

  lemma StalledMain(adj: Adjacency, conc: nat, prior: Results, s: Sched, x: NodeID) returns (s': Sched)
    requires Inv(adj, conc, prior, s) && s.done != []
    requires x in adj && adj[x] != [] && Stalled(adj, s, x)
    ensures MainFailed(adj, s, s') && Stalled(adj, s', x)
  {
    hide Books, Active, Skips, WithSkips, Launches, Settled;
    var l, r := s.ledger, s.done[0];
    assert r in s.done;
    TakeDone(s);
    var skips := Skips(adj, l, r);
    var l' := Ledger(WithSkips(l.results[r.nodeID := r], skips, r.nodeID), l.inDegree, l.remaining - 1 - |skips|,
                     l.succeeded, l.failed + {r.nodeID}, l.skipped + skips);
    s' := s.(ledger := l', done := s.done[1..]);
    assert SettleSkips(l, r, skips, l');
    StalledSurvives(adj, prior, l, Active(s), r, l', x);
  }

  lemma StalledWorker(adj: Adjacency, conc: nat, s: Sched, x: NodeID) returns (s': Sched)
    requires conc >= 1 && Busy(s) && s.done == [] && Stalled(adj, s, x)
    ensures WorkerStep(conc, s, s') && Stalled(adj, s', x)
  {
    if s.releasing > 0 {
      s' := s.(releasing := s.releasing - 1);
    } else if |s.running| > 0 {
      var id :| id in s.running;
      var r := NodeResult(id, Failed, "");
      s' := s.(running := s.running - multiset{id}, done := s.done + [r], releasing := s.releasing + 1);
      assert FinishStep(s, r, s');
    } else if s.held.Holding? {
      s' := s.(held := Nobody, running := s.running + multiset{s.held.id}, launched := s.launched + multiset{s.held.id});
    } else {
      s' := s.(ready := s.ready[1..], held := Holding(s.ready[0]));
    }
  }

  lemma StalledStep(adj: Adjacency, conc: nat, prior: Results, s: Sched, x: NodeID) returns (s': Sched)
    requires conc >= 1 && Inv(adj, conc, prior, s) && Busy(s)
    requires x in adj && adj[x] != [] && Stalled(adj, s, x)
    ensures Next(adj, conc, s, s') && Stalled(adj, s', x)
  {
    hide Inv, Stalled, WorkerStep, MainFailed;
    if s.done != [] {
      s' := StalledMain(adj, conc, prior, s, x);
      assert MainStep(adj, s, s');
    } else {
      s' := StalledWorker(adj, conc, s, x);
    }
  }

  lemma StalledSurvives(adj: Adjacency, prior: Results, l: Ledger, active: multiset<NodeID>, r: NodeResult, l': Ledger, x: NodeID)
    requires Books(adj, prior, l, active) && SettleSkips(l, r, Skips(adj, l, r), l')
    requires r.nodeID in active && l.succeeded == {}
    requires x in adj && adj[x] != [] && x in l.results && x !in Settled(l)
    ensures x in l'.results && x !in Settled(l')
  {
    PendingEmpty(adj[x]);
    assert x !in active;
    FailedSets(l, r, l', Skips(adj, l, r));
    WithSkipsAt(l.results[r.nodeID := r], Skips(adj, l, r), r.nodeID, x);
    if x in Skips(adj, l, r) {
      var y := SkipFirstStep(adj, l.results.Keys + {r.nodeID}, r.nodeID, x);
    }
  }

  /** From a stalled state some run ends with main still waiting and nothing left to move. */
  lemma {:induction false} StalledRun(adj: Adjacency, conc: nat, prior: Results, run: seq<Sched>, x: NodeID) returns (whole: seq<Sched>)
    requires Closed(adj) && conc >= 1 && Run(adj, conc, prior, run)
    requires x in adj && adj[x] != [] && Stalled(adj, run[|run| - 1], x)
    ensures |whole| > 0 && Run(adj, conc, prior, whole) && Stuck(adj, conc, whole[|whole| - 1])
    decreases 6 * |adj.Keys| + 1 - |run|
  {
    hide Next, Stalled, Inv, FailuresSpread, NoStaleDependents, Init, Busy, Stuck;
    var s := run[|run| - 1];
    RunInv(adj, conc, prior, run);
    if Busy(s) {
      var s' := StalledStep(adj, conc, prior, s, x);
      RunExtend(adj, conc, prior, run, s');
      RunsAreBounded(adj, conc, prior, run + [s']);
      whole := StalledRun(adj, conc, prior, run + [s'], x);
    } else {
      whole := run;
      StalledStuck(adj, conc, prior, s, x);
    }
  }

  lemma StalledStuck(adj: Adjacency, conc: nat, prior: Results, s: Sched, x: NodeID)
    requires conc >= 1 && Inv(adj, conc, prior, s) && !Busy(s)
    requires x in adj && Stalled(adj, s, x)
    ensures Stuck(adj, conc, s)
  {
    BusyCanStep(adj, conc, s);
    hide Next;
    StalledRemains(adj, prior, s.ledger, Active(s), x);
  }

  lemma StalledRemains(adj: Adjacency, prior: Results, l: Ledger, active: multiset<NodeID>, x: NodeID)
    requires Books(adj, prior, l, active) && x in adj && x !in Settled(l)
    ensures l.remaining > 0
  {
    SubsetCardinality(Settled(l) + {x}, adj.Keys);
  }

  lemma InitExists(adj: Adjacency, prior: Results) returns (s: Sched)
    ensures Init(adj, prior, s)
  {
    var roots := Enumerate(set x | x in adj && adj[x] == []);
    assert forall x :: x in roots <==> x in Elems(roots);
    s := Sched(Ledger(prior, map x | x in adj :: |adj[x]|, |adj.Keys|, {}, {}, {}), roots, Nobody, multiset{}, 0, [], multiset{});
  }

  /** Execution returns under every schedule and every outcome exactly when no
      node that has dependencies already carries a result. */
  lemma ReturnsIffNoStaleDependents(adj: Adjacency, conc: nat, prior: Results)
    requires Closed(adj) && !Cyclic(adj) && conc >= 1
    ensures (forall run :: Run(adj, conc, prior, run) ==> !Stuck(adj, conc, run[|run| - 1]))
       <==> NoStaleDependents(adj, prior)
  {
    if NoStaleDependents(adj, prior) {
      forall run | Run(adj, conc, prior, run) ensures !Stuck(adj, conc, run[|run| - 1]) {
        NoDeadlock(adj, conc, prior, run);
      }
    } else {
      var x :| x in adj && adj[x] != [] && x in prior;
      var s := InitExists(adj, prior);
      assert Run(adj, conc, prior, [s]);
      var whole := StalledRun(adj, conc, prior, [s], x);
      assert Run(adj, conc, prior, whole) && Stuck(adj, conc, whole[|whole| - 1]);
    }
  }

  /** Whatever is queued, running or reported finds every dependency's Done
      result in the store, at every moment of every run. */
  lemma DependenciesInStore(adj: Adjacency, conc: nat, prior: Results, run: seq<Sched>, x: NodeID)
    requires Closed(adj) && Run(adj, conc, prior, run) && x in Active(run[|run| - 1])
    ensures x in adj && DepsDone(adj, run[|run| - 1].ledger.results, x)
  {
    RunInv(adj, conc, prior, run);
    hide Run, SkipsJustified, KeepsPrior, Launches;
    PendingZero(adj[x], run[|run| - 1].ledger.succeeded);
  }

  // ----- Outcome

  ghost predicate EndedAs(results: Results, x: NodeID, st: Status) {
    x in results && results[x].status == st
  }

  ghost predicate DepsDone(adj: Adjacency, results: Results, x: NodeID) {
    forall d :: Edge(adj, x, d) ==> EndedAs(results, d, Done)
  }

  /** A node ran, once, exactly if all its dependencies ended Done; otherwise it is skipped. */
  ghost predicate Resolved(adj: Adjacency, results: Results, launched: multiset<NodeID>) {
    forall x :: x in adj ==>
      && x in results
      && (results[x].status != Skipped <==> DepsDone(adj, results, x))
      && launched[x] == if results[x].status == Skipped then 0 else 1
  }

  lemma AllSettled(adj: Adjacency, prior: Results, l: Ledger, active: multiset<NodeID>)
    requires Books(adj, prior, l, active) && l.remaining == 0
    ensures Settled(l) == adj.Keys && active == multiset{}
  {
    SubsetCardinality(Settled(l), adj.Keys);
    assert forall x :: x !in active;
  }

  lemma ResolvedAt(adj: Adjacency, prior: Results, l: Ledger, x: NodeID)
    requires Closed(adj) && Books(adj, prior, l, multiset{}) && l.remaining == 0 && x in adj
    ensures x in l.results
    ensures l.results[x].status != Skipped <==> DepsDone(adj, l.results, x)
    ensures l.results[x].status != Skipped <==> x in Executed(l)
  {
    AllSettled(adj, prior, l, multiset{});
    PendingZero(adj[x], l.succeeded);
    assert x in Settled(l);
    forall d | Edge(adj, x, d) ensures EndedAs(l.results, d, Done) <==> d in l.succeeded {
      assert d in Settled(l);
    }
  }

  /** The results of a finished run, whatever the interleaving. */
  lemma RunResolves(adj: Adjacency, conc: nat, prior: Results, run: seq<Sched>)
    requires Closed(adj) && Run(adj, conc, prior, run) && run[|run| - 1].ledger.remaining == 0
    ensures Resolved(adj, run[|run| - 1].ledger.results, run[|run| - 1].launched)
  {
    RunInv(adj, conc, prior, run);
    hide Run;
    Resolves(adj, conc, prior, run[|run| - 1]);
  }

  /** When the main loop stops, both channels and the pool are empty: nothing was lost. */
  lemma NothingInFlight(adj: Adjacency, conc: nat, prior: Results, s: Sched)
    requires Inv(adj, conc, prior, s) && s.ledger.remaining == 0
    ensures Active(s) == multiset{} && Settled(s.ledger) == adj.Keys
    ensures s.ready == [] && s.held == Nobody && s.running == multiset{} && s.done == []
    ensures s.launched == multiset(Executed(s.ledger))
  {
    hide Recorded, InFlight, Counted, Poised, SkipsJustified;
    AllSettled(adj, prior, s.ledger, Active(s));
    ActiveSize(s);
  }

  lemma Resolves(adj: Adjacency, conc: nat, prior: Results, s: Sched)
    requires Closed(adj) && Inv(adj, conc, prior, s) && s.ledger.remaining == 0
    ensures Resolved(adj, s.ledger.results, s.launched)
  {
    hide Books, Launches, DepsDone, Active, Executed;
    NothingInFlight(adj, conc, prior, s);
    var l := s.ledger;
    forall x | x in adj
      ensures x in l.results && (l.results[x].status != Skipped <==> DepsDone(adj, l.results, x))
      ensures l.results[x].status != Skipped <==> x in Executed(l)
    {
      ResolvedAt(adj, prior, l, x);
    }
  }

  /** In resolved results a node is skipped exactly if something it depends on,
      directly or not, failed. */
  lemma SkippedIffUpstreamFailed(adj: Adjacency, results: Results, launched: multiset<NodeID>, x: NodeID)
    requires Closed(adj) && !Cyclic(adj) && Resolved(adj, results, launched) && x in adj
    ensures EndedAs(results, x, Skipped) <==> exists y :: Reaches(adj, x, y) && EndedAs(results, y, Failed)
  {
    if EndedAs(results, x, Skipped) {
      var y := FailedUpstream(adj, results, launched, x);
    }
    if y :| Reaches(adj, x, y) && EndedAs(results, y, Failed) {
      var p :| |p| >= 2 && PathBetween(adj, p, x, y);
      NotDoneAlong(adj, results, launched, p);
      PathSlice(adj, p, 1, |p|);
      assert Edge(adj, p[0], p[1]);
      NotDoneAlong(adj, results, launched, p[1..]);
    }
  }

  /** Nothing that leads to a failed node ends Done. */
  lemma {:induction false} NotDoneAlong(adj: Adjacency, results: Results, launched: multiset<NodeID>, p: seq<NodeID>)
    requires Resolved(adj, results, launched) && Path(adj, p) && EndedAs(results, p[|p| - 1], Failed)
    ensures !EndedAs(results, p[0], Done)
  {
    if |p| > 1 {
      PathSlice(adj, p, 1, |p|);
      NotDoneAlong(adj, results, launched, p[1..]);
      assert Edge(adj, p[0], p[1]);
      assert !DepsDone(adj, results, p[0]);
    }
  }

  lemma FailedUpstream(adj: Adjacency, results: Results, launched: multiset<NodeID>, x: NodeID) returns (y: NodeID)
    requires Closed(adj) && !Cyclic(adj) && Resolved(adj, results, launched)
    requires x in adj && EndedAs(results, x, Skipped)
    ensures Reaches(adj, x, y) && EndedAs(results, y, Failed)
  {
    var bad := set z | z in adj && EndedAs(results, z, Skipped) && !ReachesFailed(adj, results, z);
    if x in bad {
      var z := MinimalNode(adj, bad);
      assert !DepsDone(adj, results, z);
      var d :| Edge(adj, z, d) && !EndedAs(results, d, Done);
      assert PathBetween(adj, [z, d], z, d);
      if EndedAs(results, d, Failed) {
        assert Reaches(adj, z, d);
      } else {
        assert ReachesFailed(adj, results, d);
        var f :| Reaches(adj, d, f) && EndedAs(results, f, Failed);
        ReachesThrough(adj, z, d, f);
      }
      assert ReachesFailed(adj, results, z);
      assert false;
    }
    y :| Reaches(adj, x, y) && EndedAs(results, y, Failed);
  }

  ghost predicate ReachesFailed(adj: Adjacency, results: Results, x: NodeID) {
    exists y :: Reaches(adj, x, y) && EndedAs(results, y, Failed)
  }

  lemma ReachesThrough(adj: Adjacency, x: NodeID, d: NodeID, y: NodeID)
    requires Edge(adj, x, d) && Reaches(adj, d, y)
    ensures Reaches(adj, x, y)
  {
    var p :| |p| >= 2 && PathBetween(adj, p, d, y);
    PathPrepend(adj, x, p);
    assert PathBetween(adj, [x] + p, x, y);
  }

  /** Two finished runs in which every node that ran in both ended the same way
      leave every node with the same status, however they were scheduled. */
  lemma ScheduleIndependent(adj: Adjacency, r1: Results, l1: multiset<NodeID>, r2: Results, l2: multiset<NodeID>)
    requires Closed(adj) && !Cyclic(adj)
    requires Resolved(adj, r1, l1) && Resolved(adj, r2, l2)
    requires forall x :: x in adj && l1[x] == 1 && l2[x] == 1 ==> r1[x].status == r2[x].status
    ensures forall x :: x in adj ==> r1[x].status == r2[x].status
    ensures forall x :: x in adj ==> l1[x] == l2[x]
  {
    var differ := set x | x in adj && r1[x].status != r2[x].status;
    if differ != {} {
      var x := MinimalNode(adj, differ);
      forall d | Edge(adj, x, d) ensures EndedAs(r1, d, Done) <==> EndedAs(r2, d, Done) {
        assert d !in differ;
      }
      assert false;
    }
    forall x | x in adj ensures r1[x].status == r2[x].status {
      assert x !in differ;
    }
  }
}
