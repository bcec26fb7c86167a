/** The executor's concurrency as a step system: a dispatcher, a bounded pool of
    workers and the main loop, interleaved in any order. */
module Schedule {
  import opened Graphs

  datatype Status = Done | Failed | Skipped

  /** `text` stands for the output or the error message. */
  datatype NodeResult = NodeResult(nodeID: NodeID, status: Status, text: string)

  type Results = map<NodeID, NodeResult>

  datatype Held = Nobody | Holding(id: NodeID)

  /** The main loop's own state. The last three fields are history: how it has
      settled nodes so far. */
  datatype Ledger = Ledger(
    results: Results,
    inDegree: map<NodeID, int>,
    remaining: int,
    succeeded: set<NodeID>,
    failed: set<NodeID>,
    skipped: set<NodeID>)

  /** `ready` and `done` are the two channels; the dispatcher holds at most one
      node while it waits for a pool slot; a worker gives its slot back after it
      has sent its result (`releasing`). `launched` is history: the executions
      started. */
  datatype Sched = Sched(
    ledger: Ledger,
    ready: seq<NodeID>,
    held: Held,
    running: multiset<NodeID>,
    releasing: nat,
    done: seq<NodeResult>,
    launched: multiset<NodeID>)

  ghost function Lost(l: Ledger): set<NodeID> { l.failed + l.skipped }

  ghost function Executed(l: Ledger): set<NodeID> { l.succeeded + l.failed }

  ghost function Settled(l: Ledger): set<NodeID> { l.succeeded + l.failed + l.skipped }

  // ----- What a failure skips

  function SkipResult(id: NodeID, failed: NodeID): NodeResult {
    NodeResult(id, Skipped, "dependency " + failed + " failed")
  }

  /** A dependency path to the failed node whose nodes, all but the last, have
      no result yet. */
  ghost predicate SkipPath(adj: Adjacency, known: set<NodeID>, failed: NodeID, p: seq<NodeID>) {
    && |p| >= 2 && Path(adj, p) && p[|p| - 1] == failed
    && forall i :: 0 <= i < |p| - 1 ==> p[i] !in known
  }

  ghost predicate SkipReach(adj: Adjacency, known: set<NodeID>, failed: NodeID, x: NodeID) {
    exists p :: SkipPath(adj, known, failed, p) && p[0] == x
  }

  ghost function SkipSet(adj: Adjacency, known: set<NodeID>, failed: NodeID): set<NodeID> {
    set x | x in adj && SkipReach(adj, known, failed, x)
  }

  ghost function WithSkips(results: Results, skips: set<NodeID>, failed: NodeID): Results {
    results + map x | x in skips :: SkipResult(x, failed)
  }

  lemma SkipExtend(adj: Adjacency, known: set<NodeID>, failed: NodeID, x: NodeID, y: NodeID)
    requires Edge(adj, x, y) && x !in known
    requires y == failed || SkipReach(adj, known, failed, y)
    ensures SkipReach(adj, known, failed, x)
  {
    var p := [failed];
    if y != failed {
      p :| SkipPath(adj, known, failed, p) && p[0] == y;
    }
    PathPrepend(adj, x, p);
    assert SkipPath(adj, known, failed, [x] + p) by {
      forall i | 0 <= i < |p| ensures ([x] + p)[i] !in known {
        if i > 0 { assert ([x] + p)[i] == p[i - 1]; }
      }
    }
  }

  lemma SkipFirstStep(adj: Adjacency, known: set<NodeID>, failed: NodeID, x: NodeID) returns (y: NodeID)
    requires SkipReach(adj, known, failed, x)
    ensures x !in known && Edge(adj, x, y) && (y == failed || (y !in known && SkipReach(adj, known, failed, y)))
    ensures Reaches(adj, x, failed)
  {
    var p :| SkipPath(adj, known, failed, p) && p[0] == x;
    assert PathBetween(adj, p, x, failed);
    y := p[1];
    if |p| > 2 {
      PathSlice(adj, p, 1, |p|);
      assert SkipPath(adj, known, failed, p[1..]);
    }
  }

  // ----- Steps

  function DoneIds(done: seq<NodeResult>): seq<NodeID> {
    if done == [] then [] else [done[0].nodeID] + DoneIds(done[1..])
  }

  function HeldBag(held: Held): multiset<NodeID> {
    if held.Nobody? then multiset{} else multiset{held.id}
  }

  /** Everything that is on its way from `ready` to the main loop. */
  function Active(s: Sched): multiset<NodeID> {
    multiset(s.ready) + HeldBag(s.held) + s.running + multiset(DoneIds(s.done))
  }

  ghost predicate TakeStep(s: Sched, s': Sched) {
    && s.ready != [] && s.held == Nobody
    && s' == s.(ready := s.ready[1..], held := Holding(s.ready[0]))
  }

  ghost predicate LaunchStep(conc: nat, s: Sched, s': Sched) {
    && s.held.Holding? && |s.running| + s.releasing < conc
    && s' == s.(held := Nobody,
                running := s.running + multiset{s.held.id},
                launched := s.launched + multiset{s.held.id})
  }

  /** A worker ends Done or Failed, whichever the node's execution produced. */
  ghost predicate FinishStep(s: Sched, r: NodeResult, s': Sched) {
    && r.nodeID in s.running && r.status != Skipped
    && s' == s.(running := s.running - multiset{r.nodeID},
                done := s.done + [r],
                releasing := s.releasing + 1)
  }

  ghost predicate ExitStep(s: Sched, s': Sched) {
    s.releasing > 0 && s' == s.(releasing := s.releasing - 1)
  }

  ghost predicate Decremented(adj: Adjacency, degree: map<NodeID, int>, id: NodeID, degree': map<NodeID, int>) {
    && degree'.Keys == degree.Keys == adj.Keys
    && forall x :: x in adj ==> degree'[x] == degree[x] - multiset(adj[x])[id]
  }

  /** The nodes whose counter has just reached zero, each once. */
  ghost predicate Freed(degree: map<NodeID, int>, degree': map<NodeID, int>, freed: seq<NodeID>) {
    && degree'.Keys == degree.Keys && NoDup(freed)
    && forall x :: x in freed <==> x in degree && degree[x] > 0 >= degree'[x]
  }

  ghost predicate SettleDone(adj: Adjacency, l: Ledger, r: NodeResult, freed: seq<NodeID>, l': Ledger) {
    && Decremented(adj, l.inDegree, r.nodeID, l'.inDegree)
    && Freed(l.inDegree, l'.inDegree, freed)
    && l' == Ledger(l.results[r.nodeID := r], l'.inDegree, l.remaining - 1,
                    l.succeeded + {r.nodeID}, l.failed, l.skipped)
  }

  ghost predicate SettleSkips(l: Ledger, r: NodeResult, skips: set<NodeID>, l': Ledger) {
    l' == Ledger(WithSkips(l.results[r.nodeID := r], skips, r.nodeID), l.inDegree, l.remaining - 1 - |skips|,
                 l.succeeded, l.failed + {r.nodeID}, l.skipped + skips)
  }

  ghost predicate SettleFailed(adj: Adjacency, l: Ledger, r: NodeResult, l': Ledger) {
    SettleSkips(l, r, Skips(adj, l, r), l')
  }

  ghost function Skips(adj: Adjacency, l: Ledger, r: NodeResult): set<NodeID> {
    SkipSet(adj, l.results.Keys + {r.nodeID}, r.nodeID)
  }

  ghost predicate MainDone(adj: Adjacency, s: Sched, freed: seq<NodeID>, s': Sched) {
    && s.done != [] && s.done[0].status != Failed
    && SettleDone(adj, s.ledger, s.done[0], freed, s'.ledger)
    && s' == s.(ledger := s'.ledger, ready := s.ready + freed, done := s.done[1..])
  }

  ghost predicate MainFailed(adj: Adjacency, s: Sched, s': Sched) {
    && s.done != [] && s.done[0].status == Failed
    && SettleFailed(adj, s.ledger, s.done[0], s'.ledger)
    && s' == s.(ledger := s'.ledger, done := s.done[1..])
  }

  ghost predicate WorkerStep(conc: nat, s: Sched, s': Sched) {
    || TakeStep(s, s')
    || LaunchStep(conc, s, s')
    || (exists r :: FinishStep(s, r, s'))
    || ExitStep(s, s')
  }

  ghost predicate MainStep(adj: Adjacency, s: Sched, s': Sched) {
    || (exists freed :: MainDone(adj, s, freed, s'))
    || MainFailed(adj, s, s')
  }

  ghost predicate Next(adj: Adjacency, conc: nat, s: Sched, s': Sched) {
    WorkerStep(conc, s, s') || MainStep(adj, s, s')
  }

  ghost predicate Init(adj: Adjacency, prior: Results, s: Sched) {
    && s.ledger == Ledger(prior, s.ledger.inDegree, |adj.Keys|, {}, {}, {})
    && s.ledger.inDegree.Keys == adj.Keys
    && (forall x :: x in adj ==> s.ledger.inDegree[x] == |adj[x]|)
    && NoDup(s.ready) && (forall x :: x in s.ready <==> x in adj && adj[x] == [])
    && s == Sched(s.ledger, s.ready, Nobody, multiset{}, 0, [], multiset{})
  }

  // ----- Invariants

  /** The store agrees with the history; other entries are from before the run. */
  ghost predicate Recorded(prior: Results, l: Ledger) {
    && AllHave(l.results, l.succeeded, Done)
    && AllHave(l.results, l.failed, Failed)
    && AllHave(l.results, l.skipped, Skipped)
    && KeepsPrior(prior, l.results, Settled(l))
  }

  ghost predicate AllHave(results: Results, s: set<NodeID>, st: Status) {
    forall x :: x in s ==> x in results && results[x].status == st
  }

  ghost predicate KeepsPrior(prior: Results, results: Results, settled: set<NodeID>) {
    && (forall x :: x in results && x !in settled ==> x in prior && results[x] == prior[x])
    && (forall x :: x in prior ==> x in results)
  }

  /** Nodes in flight are unsettled and nowhere twice. */
  ghost predicate InFlight(adj: Adjacency, active: multiset<NodeID>, settled: set<NodeID>) {
    && (forall x :: active[x] <= 1)
    && (forall x :: x in active ==> x in adj && x !in settled)
    && settled <= adj.Keys
  }

  ghost predicate Counted(adj: Adjacency, degree: map<NodeID, int>, succeeded: set<NodeID>) {
    && degree.Keys == adj.Keys
    && (forall x :: x in adj ==> degree[x] == Pending(adj[x], succeeded))
  }

  /** A counter is zero exactly for the nodes in flight or executed. */
  ghost predicate Poised(degree: map<NodeID, int>, active: multiset<NodeID>, executed: set<NodeID>) {
    forall x :: x in degree ==> (degree[x] == 0 <==> x in active || x in executed)
  }

  /** Some direct dependency has been settled without success. */
  ghost predicate Doomed(adj: Adjacency, lost: set<NodeID>, x: NodeID) {
    exists d :: Edge(adj, x, d) && d in lost
  }

  ghost predicate Explained(adj: Adjacency, failed: set<NodeID>, x: NodeID) {
    exists y :: y in failed && Reaches(adj, x, y)
  }

  /** Every skipped node has a lost direct dependency and a failed transitive one. */
  ghost predicate SkipsJustified(adj: Adjacency, skipped: set<NodeID>, lost: set<NodeID>, failed: set<NodeID>) {
    && (forall x :: x in skipped ==> Doomed(adj, lost, x))
    && (forall x :: x in skipped ==> Explained(adj, failed, x))
  }

  ghost predicate Disjoint(l: Ledger) {
    l.succeeded !! l.failed && l.succeeded !! l.skipped && l.failed !! l.skipped
  }

  /** What the main loop keeps, given everything in flight. */
  ghost predicate Books(adj: Adjacency, prior: Results, l: Ledger, active: multiset<NodeID>) {
    && Recorded(prior, l)
    && InFlight(adj, active, Settled(l))
    && Counted(adj, l.inDegree, l.succeeded)
    && Poised(l.inDegree, active, Executed(l))
    && SkipsJustified(adj, l.skipped, Lost(l), l.failed)
    && Disjoint(l)
    && l.remaining == |adj.Keys| - |Settled(l)|
  }

  /** One execution for every node running, reported or settled without a skip. */
  ghost predicate Launches(s: Sched) {
    s.launched == s.running + multiset(DoneIds(s.done)) + multiset(Executed(s.ledger))
  }

  ghost predicate Pool(conc: nat, s: Sched) {
    && |s.running| + s.releasing <= conc
    && (forall r :: r in s.done ==> r.status != Skipped)
  }

  ghost predicate Inv(adj: Adjacency, conc: nat, prior: Results, s: Sched) {
    Books(adj, prior, s.ledger, Active(s)) && Launches(s) && Pool(conc, s)
  }

  /** No node that has dependencies carries a result from before the run. */
  ghost predicate NoStaleDependents(adj: Adjacency, prior: Results) {
    forall x :: x in adj && adj[x] != [] ==> x !in prior
  }

  /** Dependents of anything lost are settled too. */
  ghost predicate FailuresSpread(adj: Adjacency, lost: set<NodeID>, settled: set<NodeID>) {
    forall x, y :: Edge(adj, x, y) && y in lost ==> x in settled
  }

  lemma NoDupBag(s: seq<NodeID>)
    requires NoDup(s)
    ensures multiset(s) == multiset(Elems(s))
  {
    forall x ensures multiset(s)[x] == multiset(Elems(s))[x] {
      NoDupCount(s, x);
    }
  }

  lemma InitInv(adj: Adjacency, conc: nat, prior: Results, s: Sched)
    requires Init(adj, prior, s)
    ensures Inv(adj, conc, prior, s)
    ensures FailuresSpread(adj, Lost(s.ledger), Settled(s.ledger))
  {
    assert DoneIds(s.done) == [];
    assert Active(s) == multiset(s.ready);
    NoDupBag(s.ready);
    forall x | x in adj ensures s.ledger.inDegree[x] == Pending(adj[x], {}) {
      PendingEmpty(adj[x]);
    }
    assert Settled(s.ledger) == {} && Executed(s.ledger) == {};
  }

  // ----- Dispatcher and workers

  lemma {:induction false} DoneIdsAppend(done: seq<NodeResult>, r: NodeResult)
    ensures DoneIds(done + [r]) == DoneIds(done) + [r.nodeID]
  {
    if done == [] {
      assert done + [r] == [r];
    } else {
      DoneIdsAppend(done[1..], r);
      assert (done + [r])[1..] == done[1..] + [r];
    }
  }

  lemma TakeKeeps(s: Sched, s': Sched)
    requires TakeStep(s, s')
    ensures Active(s') == Active(s)
  {
    assert s.ready == [s.ready[0]] + s.ready[1..];
  }

  lemma MoveBag(r: multiset<NodeID>, d: multiset<NodeID>, x: NodeID)
    requires x in r
    ensures (r - multiset{x}) + (d + multiset{x}) == r + d
  {
  }

  lemma FinishKeeps(s: Sched, r: NodeResult, s': Sched)
    requires FinishStep(s, r, s')
    ensures s'.running + multiset(DoneIds(s'.done)) == s.running + multiset(DoneIds(s.done))
    ensures Active(s') == Active(s)
  {
    DoneIdsAppend(s.done, r);
    assert multiset(DoneIds(s'.done)) == multiset(DoneIds(s.done)) + multiset{r.nodeID};
    MoveBag(s.running, multiset(DoneIds(s.done)), r.nodeID);
    var front := multiset(s.ready) + HeldBag(s.held);
    assert Active(s) == front + (s.running + multiset(DoneIds(s.done)));
    assert Active(s') == front + (s'.running + multiset(DoneIds(s'.done)));
  }

  lemma LaunchKeeps(conc: nat, s: Sched, s': Sched)
    requires LaunchStep(conc, s, s') && Launches(s)
    ensures Active(s') == Active(s) && Launches(s')
  {
    assert HeldBag(s.held) == multiset{s.held.id};
  }

  /** Dispatcher and worker steps only move nodes along. */
  lemma WorkerStepKeeps(conc: nat, s: Sched, s': Sched)
    requires WorkerStep(conc, s, s') && Launches(s) && Pool(conc, s)
    ensures s'.ledger == s.ledger && Active(s') == Active(s)
    ensures Launches(s') && Pool(conc, s')
  {
    if TakeStep(s, s') {
      TakeKeeps(s, s');
    } else if LaunchStep(conc, s, s') {
      LaunchKeeps(conc, s, s');
    } else if ExitStep(s, s') {
    } else {
      var r :| FinishStep(s, r, s');
      FinishKeeps(s, r, s');
    }
  }

  lemma WorkerStepInv(adj: Adjacency, conc: nat, prior: Results, s: Sched, s': Sched)
    requires Inv(adj, conc, prior, s) && WorkerStep(conc, s, s')
    ensures Inv(adj, conc, prior, s') && s'.ledger == s.ledger && Active(s') == Active(s)
  {
    hide Books, Launches, Pool;
    WorkerStepKeeps(conc, s, s');
  }

  // ----- The main loop takes a Done result

  lemma TakeDone(s: Sched)
    requires s.done != []
    ensures multiset(DoneIds(s.done)) == multiset{s.done[0].nodeID} + multiset(DoneIds(s.done[1..]))
    ensures s.done[0].nodeID in Active(s)
  {
  }

  lemma DoomedNeverReady(adj: Adjacency, lost: set<NodeID>, succeeded: set<NodeID>, x: NodeID)
    requires Doomed(adj, lost, x) && lost !! succeeded
    ensures Pending(adj[x], succeeded) > 0
  {
    var d :| Edge(adj, x, d) && d in lost;
    PendingZero(adj[x], succeeded);
  }

  lemma DoneSets(adj: Adjacency, l: Ledger, r: NodeResult, freed: seq<NodeID>, l': Ledger)
    requires SettleDone(adj, l, r, freed, l')
    ensures Settled(l') == Settled(l) + {r.nodeID}
    ensures Executed(l') == Executed(l) + {r.nodeID}
    ensures Lost(l') == Lost(l)
  {
    assert l'.failed == l.failed && l'.skipped == l.skipped && l'.succeeded == l.succeeded + {r.nodeID};
  }

  lemma DoneCounts(adj: Adjacency, l: Ledger, r: NodeResult, freed: seq<NodeID>, l': Ledger)
    requires SettleDone(adj, l, r, freed, l')
    requires Counted(adj, l.inDegree, l.succeeded) && r.nodeID !in l.succeeded
    ensures Counted(adj, l'.inDegree, l'.succeeded)
  {
    forall x | x in adj ensures l'.inDegree[x] == Pending(adj[x], l'.succeeded) {
      PendingAdd(adj[x], l.succeeded, r.nodeID);
    }
  }

  /** Freed nodes were waiting: not in flight, not settled in any way. */
  lemma FreedWereWaiting(adj: Adjacency, l: Ledger, active: multiset<NodeID>, r: NodeResult, freed: seq<NodeID>, l': Ledger)
    requires SettleDone(adj, l, r, freed, l')
    requires Counted(adj, l'.inDegree, l'.succeeded)
    requires Poised(l.inDegree, active, Executed(l))
    requires SkipsJustified(adj, l.skipped, Lost(l), l.failed)
    requires Lost(l) !! l'.succeeded
    ensures forall x :: x in freed ==> x in adj && x !in active && x !in Settled(l)
  {
    forall x | x in freed ensures x in adj && x !in active && x !in Settled(l) {
      assert l.inDegree[x] > 0 && l'.inDegree[x] == 0;
      if x in l.skipped {
        DoomedNeverReady(adj, Lost(l), l'.succeeded, x);
      }
    }
  }

  lemma DoneFlight(adj: Adjacency, active: multiset<NodeID>, settled: set<NodeID>, id: NodeID, freed: seq<NodeID>)
    requires InFlight(adj, active, settled) && id in active && NoDup(freed)
    requires forall x :: x in freed ==> x in adj && x !in active && x !in settled
    ensures InFlight(adj, active - multiset{id} + multiset(freed), settled + {id})
  {
    NoDupBag(freed);
    assert active[id] == 1;
  }

  lemma DonePoised(adj: Adjacency, l: Ledger, active: multiset<NodeID>, r: NodeResult, freed: seq<NodeID>, l': Ledger)
    requires SettleDone(adj, l, r, freed, l')
    requires active[r.nodeID] == 1
    requires Counted(adj, l'.inDegree, l'.succeeded)
    requires Poised(l.inDegree, active, Executed(l))
    ensures Poised(l'.inDegree, active - multiset{r.nodeID} + multiset(freed), Executed(l) + {r.nodeID})
  {
    var active' := active - multiset{r.nodeID} + multiset(freed);
    forall x | x in l'.inDegree
      ensures l'.inDegree[x] == 0 <==> x in active' || x in Executed(l) + {r.nodeID}
    {
      if l.inDegree[x] == 0 {
        assert l'.inDegree[x] == 0;
      }
      assert x in multiset(freed) <==> x in freed;
    }
  }

  lemma DoneRecorded(adj: Adjacency, prior: Results, l: Ledger, r: NodeResult, freed: seq<NodeID>, l': Ledger)
    requires SettleDone(adj, l, r, freed, l') && Recorded(prior, l)
    requires r.nodeID !in Settled(l) && r.status == Done
    ensures Recorded(prior, l')
  {
    DoneSets(adj, l, r, freed, l');
  }

  lemma FlightOf(adj: Adjacency, active: multiset<NodeID>, settled: set<NodeID>, id: NodeID)
    requires InFlight(adj, active, settled) && id in active
    ensures active[id] == 1 && id !in settled && id in adj
  {
  }

  lemma SettleDoneBooks(adj: Adjacency, prior: Results, l: Ledger, active: multiset<NodeID>,
                        r: NodeResult, freed: seq<NodeID>, l': Ledger)
    requires Books(adj, prior, l, active) && SettleDone(adj, l, r, freed, l')
    requires r.nodeID in active && r.status == Done
    ensures Books(adj, prior, l', active - multiset{r.nodeID} + multiset(freed))
    ensures r.nodeID !in Settled(l)
  {
    hide Recorded, InFlight, Counted, Poised, SkipsJustified;
    FlightOf(adj, active, Settled(l), r.nodeID);
    DoneSets(adj, l, r, freed, l');
    DoneRecorded(adj, prior, l, r, freed, l');
    DoneCounts(adj, l, r, freed, l');
    DoneInFlight(adj, l, active, r, freed, l');
  }

  lemma DoneInFlight(adj: Adjacency, l: Ledger, active: multiset<NodeID>, r: NodeResult, freed: seq<NodeID>, l': Ledger)
    requires SettleDone(adj, l, r, freed, l')
    requires InFlight(adj, active, Settled(l)) && r.nodeID in active
    requires Counted(adj, l'.inDegree, l'.succeeded) && Poised(l.inDegree, active, Executed(l))
    requires SkipsJustified(adj, l.skipped, Lost(l), l.failed) && Disjoint(l)
    ensures InFlight(adj, active - multiset{r.nodeID} + multiset(freed), Settled(l'))
    ensures Poised(l'.inDegree, active - multiset{r.nodeID} + multiset(freed), Executed(l'))
  {
    hide InFlight, Counted, Poised, SkipsJustified;
    FlightOf(adj, active, Settled(l), r.nodeID);
    DoneSets(adj, l, r, freed, l');
    FreedWereWaiting(adj, l, active, r, freed, l');
    DoneFlight(adj, active, Settled(l), r.nodeID, freed);
    DonePoised(adj, l, active, r, freed, l');
  }

  lemma SettleBag(launched: multiset<NodeID>, running: multiset<NodeID>, rest: multiset<NodeID>,
                  executed: set<NodeID>, id: NodeID)
    requires launched == running + (multiset{id} + rest) + multiset(executed) && id !in executed
    ensures launched == running + rest + multiset(executed + {id})
  {
    assert multiset(executed + {id}) == multiset(executed) + multiset{id};
  }

  lemma MainDoneActive(adj: Adjacency, s: Sched, freed: seq<NodeID>, s': Sched)
    requires MainDone(adj, s, freed, s')
    ensures Active(s') == Active(s) - multiset{s.done[0].nodeID} + multiset(freed)
  {
    hide SettleDone;
    TakeDone(s);
  }

  lemma MainDoneLaunches(adj: Adjacency, s: Sched, freed: seq<NodeID>, s': Sched)
    requires MainDone(adj, s, freed, s') && Launches(s) && s.done[0].nodeID !in Executed(s.ledger)
    ensures Launches(s')
  {
    DoneSets(adj, s.ledger, s.done[0], freed, s'.ledger);
    TakeDone(s);
    SettleBag(s.launched, s.running, multiset(DoneIds(s'.done)), Executed(s.ledger), s.done[0].nodeID);
  }

  lemma MainDoneInv(adj: Adjacency, conc: nat, prior: Results, s: Sched, freed: seq<NodeID>, s': Sched)
    requires Inv(adj, conc, prior, s) && MainDone(adj, s, freed, s')
    ensures Inv(adj, conc, prior, s')
    ensures Settled(s'.ledger) == Settled(s.ledger) + {s.done[0].nodeID} && Lost(s'.ledger) == Lost(s.ledger)
    ensures Active(s') == Active(s) - multiset{s.done[0].nodeID} + multiset(freed)
  {
    hide Books, Active, Launches, SettleDone;
    var r := s.done[0];
    assert r in s.done;
    TakeDone(s);
    SettleDoneBooks(adj, prior, s.ledger, Active(s), r, freed, s'.ledger);
    DoneSets(adj, s.ledger, r, freed, s'.ledger);
    MainDoneActive(adj, s, freed, s');
    MainDoneLaunches(adj, s, freed, s');
  }

  // ----- The main loop takes a Failed result

  lemma FailedSets(l: Ledger, r: NodeResult, l': Ledger, skips: set<NodeID>)
    requires SettleSkips(l, r, skips, l')
    ensures Settled(l') == Settled(l) + {r.nodeID} + skips
    ensures Executed(l') == Executed(l) + {r.nodeID}
    ensures Lost(l') == Lost(l) + {r.nodeID} + skips
  {
    assert l'.succeeded == l.succeeded && l'.failed == l.failed + {r.nodeID} && l'.skipped == l.skipped + skips;
  }

  /** What is skipped had no result, depends on a lost node, and was waiting. */
  lemma SkipsWereWaiting(adj: Adjacency, l: Ledger, active: multiset<NodeID>, r: NodeResult, skips: set<NodeID>)
    requires Closed(adj)
    requires skips == Skips(adj, l, r)
    requires Counted(adj, l.inDegree, l.succeeded) && Poised(l.inDegree, active, Executed(l))
    requires forall x :: x in l.succeeded ==> x in l.results
    requires r.nodeID !in l.succeeded
    ensures forall x :: x in skips ==> x in adj && x !in l.results && x != r.nodeID && x !in active && x !in Executed(l)
    ensures forall x :: x in skips ==> Doomed(adj, {r.nodeID} + skips, x) && Reaches(adj, x, r.nodeID)
  {
    var known := l.results.Keys + {r.nodeID};
    forall x | x in skips
      ensures x in adj && x !in l.results && x != r.nodeID && x !in active && x !in Executed(l)
      ensures Doomed(adj, {r.nodeID} + skips, x) && Reaches(adj, x, r.nodeID)
    {
      var y := SkipFirstStep(adj, known, r.nodeID, x);
      assert y in {r.nodeID} + skips;
      PendingZero(adj[x], l.succeeded);
      assert l.inDegree[x] > 0;
    }
  }

  lemma WithSkipsAt(results: Results, skips: set<NodeID>, failed: NodeID, x: NodeID)
    ensures x in WithSkips(results, skips, failed) <==> x in results || x in skips
    ensures x in skips ==> WithSkips(results, skips, failed)[x].status == Skipped
    ensures x in results && x !in skips ==> WithSkips(results, skips, failed)[x] == results[x]
  {
  }

  lemma FailedPrior(prior: Results, results: Results, settled: set<NodeID>, r: NodeResult, skips: set<NodeID>)
    requires KeepsPrior(prior, results, settled)
    ensures KeepsPrior(prior, WithSkips(results[r.nodeID := r], skips, r.nodeID), settled + {r.nodeID} + skips)
  {
    hide WithSkips;
    forall x
      ensures x in WithSkips(results[r.nodeID := r], skips, r.nodeID) <==> x in results || x == r.nodeID || x in skips
      ensures x in results && x != r.nodeID && x !in skips
          ==> WithSkips(results[r.nodeID := r], skips, r.nodeID)[x] == results[x]
    {
      WithSkipsAt(results[r.nodeID := r], skips, r.nodeID, x);
    }
  }

  lemma FailedKeepsStatus(results: Results, s: set<NodeID>, st: Status, r: NodeResult, skips: set<NodeID>)
    requires AllHave(results, s, st) && r.nodeID !in s && s !! skips
    ensures AllHave(WithSkips(results[r.nodeID := r], skips, r.nodeID), s, st)
  {
    hide WithSkips;
    forall x | x in s
      ensures x in WithSkips(results[r.nodeID := r], skips, r.nodeID)
           && WithSkips(results[r.nodeID := r], skips, r.nodeID)[x].status == st
    {
      WithSkipsAt(results[r.nodeID := r], skips, r.nodeID, x);
    }
  }

  lemma FailedAddsStatus(results: Results, failed: set<NodeID>, skipped: set<NodeID>, r: NodeResult, skips: set<NodeID>)
    requires r.status == Failed && r.nodeID !in skips
    requires AllHave(WithSkips(results[r.nodeID := r], skips, r.nodeID), failed, Failed)
    requires AllHave(WithSkips(results[r.nodeID := r], skips, r.nodeID), skipped, Skipped)
    ensures AllHave(WithSkips(results[r.nodeID := r], skips, r.nodeID), failed + {r.nodeID}, Failed)
    ensures AllHave(WithSkips(results[r.nodeID := r], skips, r.nodeID), skipped + skips, Skipped)
  {
    hide WithSkips;
    WithSkipsAt(results[r.nodeID := r], skips, r.nodeID, r.nodeID);
    forall x | x in skips
      ensures x in WithSkips(results[r.nodeID := r], skips, r.nodeID)
           && WithSkips(results[r.nodeID := r], skips, r.nodeID)[x].status == Skipped
    {
      WithSkipsAt(results[r.nodeID := r], skips, r.nodeID, x);
    }
  }

  lemma FailedRecorded(prior: Results, l: Ledger, r: NodeResult, l': Ledger, skips: set<NodeID>)
    requires SettleSkips(l, r, skips, l')
    requires Recorded(prior, l) && r.nodeID !in Settled(l) && r.status == Failed
    requires r.nodeID !in skips && skips !! Settled(l)
    ensures Recorded(prior, l')
  {
    hide AllHave, KeepsPrior, WithSkips;
    FailedSets(l, r, l', skips);
    FailedPrior(prior, l.results, Settled(l), r, skips);
    FailedKeepsStatus(l.results, l.succeeded, Done, r, skips);
    FailedKeepsStatus(l.results, l.failed, Failed, r, skips);
    FailedKeepsStatus(l.results, l.skipped, Skipped, r, skips);
    FailedAddsStatus(l.results, l.failed, l.skipped, r, skips);
  }

  lemma FailedFlight(adj: Adjacency, active: multiset<NodeID>, settled: set<NodeID>, id: NodeID, skips: set<NodeID>)
    requires InFlight(adj, active, settled) && id in active
    requires forall x :: x in skips ==> x in adj && x !in active
    ensures InFlight(adj, active - multiset{id}, settled + {id} + skips)
  {
    assert active[id] == 1;
  }

  lemma FailedPoised(degree: map<NodeID, int>, active: multiset<NodeID>, executed: set<NodeID>, id: NodeID)
    requires Poised(degree, active, executed) && active[id] == 1
    ensures Poised(degree, active - multiset{id}, executed + {id})
  {
  }

  lemma FailedJustified(adj: Adjacency, skipped: set<NodeID>, lost: set<NodeID>, failed: set<NodeID>, id: NodeID, skips: set<NodeID>)
    requires SkipsJustified(adj, skipped, lost, failed)
    requires forall x :: x in skips ==> Doomed(adj, {id} + skips, x) && Reaches(adj, x, id)
    ensures SkipsJustified(adj, skipped + skips, lost + {id} + skips, failed + {id})
  {
    var lost', failed' := lost + {id} + skips, failed + {id};
    forall x | x in skipped + skips ensures Doomed(adj, lost', x) && Explained(adj, failed', x) {
      if x in skipped {
        var d :| Edge(adj, x, d) && d in lost;
        assert d in lost';
        var y :| y in failed && Reaches(adj, x, y);
        assert y in failed';
      } else {
        var d :| Edge(adj, x, d) && d in {id} + skips;
        assert d in lost';
        assert id in failed' && Reaches(adj, x, id);
      }
    }
  }

  lemma SettleFailedBooks(adj: Adjacency, prior: Results, l: Ledger, active: multiset<NodeID>,
                          r: NodeResult, l': Ledger, skips: set<NodeID>)
    requires Closed(adj) && Books(adj, prior, l, active)
    requires SettleSkips(l, r, skips, l') && skips == Skips(adj, l, r)
    requires r.nodeID in active && r.status == Failed
    ensures Books(adj, prior, l', active - multiset{r.nodeID})
    ensures r.nodeID !in Settled(l)
  {
    var id := r.nodeID;
    hide InFlight, Counted, Poised, SkipsJustified, SkipSet, Skips, Doomed, Reaches, KeepsPrior;
    FlightOf(adj, active, Settled(l), id);
    assert forall x :: x in Settled(l) ==> x in l.results;
    SkipsWereWaiting(adj, l, active, r, skips);
    assert skips !! Settled(l);
    hide Recorded, Executed;
    FailedSets(l, r, l', skips);
    FailedRecorded(prior, l, r, l', skips);
    FailedFlight(adj, active, Settled(l), id, skips);
    FailedPoised(l.inDegree, active, Executed(l), id);
    FailedJustified(adj, l.skipped, Lost(l), l.failed, id, skips);
    FailedTally(adj, l, r, l', skips);
  }

  lemma FailedTally(adj: Adjacency, l: Ledger, r: NodeResult, l': Ledger, skips: set<NodeID>)
    requires SettleSkips(l, r, skips, l') && Disjoint(l)
    requires r.nodeID !in Settled(l) && l.remaining == |adj.Keys| - |Settled(l)|
    requires forall x :: x in skips ==> x !in Settled(l) && x != r.nodeID
    ensures Disjoint(l') && l'.remaining == |adj.Keys| - |Settled(l')|
  {
    FailedSets(l, r, l', skips);
    assert |Settled(l) + {r.nodeID} + skips| == |Settled(l)| + 1 + |skips|;
  }

  lemma DependentSkipped(adj: Adjacency, l: Ledger, r: NodeResult, x: NodeID, y: NodeID)
    requires Edge(adj, x, y) && (y == r.nodeID || y in Skips(adj, l, r))
    requires x !in l.results && x != r.nodeID
    ensures x in Skips(adj, l, r)
  {
    SkipExtend(adj, l.results.Keys + {r.nodeID}, r.nodeID, x, y);
  }

  /** Without stale results on dependents, a failure settles every dependent. */
  lemma FailedSpreads(adj: Adjacency, prior: Results, l: Ledger, r: NodeResult, l': Ledger)
    requires NoStaleDependents(adj, prior)
    requires SettleSkips(l, r, Skips(adj, l, r), l')
    requires forall x :: x in l.results && x !in Settled(l) ==> x in prior
    requires FailuresSpread(adj, Lost(l), Settled(l))
    ensures FailuresSpread(adj, Lost(l'), Settled(l'))
  {
    FailedSets(l, r, l', Skips(adj, l, r));
    hide Skips, SettleSkips, Settled, Lost;
    forall x, y | Edge(adj, x, y) && y in Lost(l') ensures x in Settled(l') {
      if y in Lost(l) {
        assert x in Settled(l);
      } else if x !in Settled(l) && x != r.nodeID {
        DependentSkipped(adj, l, r, x, y);
      }
    }
  }

  lemma MainFailedLaunches(adj: Adjacency, s: Sched, s': Sched)
    requires MainFailed(adj, s, s') && Launches(s) && s.done[0].nodeID !in Executed(s.ledger)
    ensures Launches(s')
  {
    var r := s.done[0];
    hide Skips;
    FailedSets(s.ledger, r, s'.ledger, Skips(adj, s.ledger, r));
    TakeDone(s);
    SettleBag(s.launched, s.running, multiset(DoneIds(s'.done)), Executed(s.ledger), r.nodeID);
  }

  lemma MainFailedActive(adj: Adjacency, s: Sched, s': Sched)
    requires MainFailed(adj, s, s')
    ensures Active(s') == Active(s) - multiset{s.done[0].nodeID}
  {
    hide SettleFailed;
    TakeDone(s);
  }

  lemma MainFailedInv(adj: Adjacency, conc: nat, prior: Results, s: Sched, s': Sched)
    requires Closed(adj) && Inv(adj, conc, prior, s) && MainFailed(adj, s, s')
    ensures Inv(adj, conc, prior, s')
    ensures s.done[0].nodeID !in Settled(s.ledger)
  {
    hide Books, Active, Launches, SettleSkips, Skips;
    var r := s.done[0];
    assert r in s.done;
    TakeDone(s);
    SettleFailedBooks(adj, prior, s.ledger, Active(s), r, s'.ledger, Skips(adj, s.ledger, r));
    MainFailedActive(adj, s, s');
    MainFailedLaunches(adj, s, s');
  }

  lemma MainFailedSpreads(adj: Adjacency, conc: nat, prior: Results, s: Sched, s': Sched)
    requires Closed(adj) && Inv(adj, conc, prior, s) && MainFailed(adj, s, s')
    requires NoStaleDependents(adj, prior) && FailuresSpread(adj, Lost(s.ledger), Settled(s.ledger))
    ensures FailuresSpread(adj, Lost(s'.ledger), Settled(s'.ledger))
  {
    hide SettleSkips, Skips, FailuresSpread, Launches, Active, InFlight, Counted, Poised, SkipsJustified;
    FailedSpreads(adj, prior, s.ledger, s.done[0], s'.ledger);
  }

  /** Every step of every interleaving keeps the invariant. */
  lemma NextInv(adj: Adjacency, conc: nat, prior: Results, s: Sched, s': Sched)
    requires Closed(adj) && Inv(adj, conc, prior, s) && Next(adj, conc, s, s')
    ensures Inv(adj, conc, prior, s')
    ensures NoStaleDependents(adj, prior) && FailuresSpread(adj, Lost(s.ledger), Settled(s.ledger))
        ==> FailuresSpread(adj, Lost(s'.ledger), Settled(s'.ledger))
  {
    hide Inv, FailuresSpread, WorkerStep, MainDone, MainFailed, NoStaleDependents;
    if WorkerStep(conc, s, s') {
      WorkerStepInv(adj, conc, prior, s, s');
    } else if MainFailed(adj, s, s') {
      MainFailedInv(adj, conc, prior, s, s');
      if NoStaleDependents(adj, prior) && FailuresSpread(adj, Lost(s.ledger), Settled(s.ledger)) {
        MainFailedSpreads(adj, conc, prior, s, s');
      }
    } else {
      var freed :| MainDone(adj, s, freed, s');
      DoneSpreads(adj, conc, prior, s, freed, s');
    }
  }

  lemma DoneSpreads(adj: Adjacency, conc: nat, prior: Results, s: Sched, freed: seq<NodeID>, s': Sched)
    requires Inv(adj, conc, prior, s) && MainDone(adj, s, freed, s')
    ensures Inv(adj, conc, prior, s')
    ensures FailuresSpread(adj, Lost(s.ledger), Settled(s.ledger))
        ==> FailuresSpread(adj, Lost(s'.ledger), Settled(s'.ledger))
  {
    hide Inv, MainDone;
    MainDoneInv(adj, conc, prior, s, freed, s');
  }
}
