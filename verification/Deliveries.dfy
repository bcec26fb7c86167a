/** What a run leaves in the store: every result just as its worker sent it, and skips
    that name the failure they come from. */
module Deliveries {
  import opened Graphs
  import opened Schedule
  import opened Interleavings

  /** Some worker finished with that result during the run. */
  ghost predicate Sent(run: seq<Sched>, r: NodeResult) {
    exists i, j :: 0 <= i && j == i + 1 && j < |run| && FinishStep(run[i], r, run[j])
  }

  ghost predicate Keeps(l: Ledger, r: NodeResult) {
    r.nodeID in Executed(l) && r.nodeID in l.results && l.results[r.nodeID] == r
  }

  /** Sent, and on its way to the store or in it. */
  ghost predicate Arrived(s: Sched, r: NodeResult) {
    r in s.done || Keeps(s.ledger, r)
  }

  /** The entry of a skipped node names a failed node that it depends on. */
  ghost predicate NamesFailure(adj: Adjacency, results: Results, failed: set<NodeID>, x: NodeID) {
    exists y :: y in failed && Reaches(adj, x, y)
      && x in results && results[x] == NodeResult(x, Skipped, "dependency " + y + " failed")
  }

  /** Entries stand under the id they are for. */
  ghost predicate Labelled(adj: Adjacency, l: Ledger) {
    && (forall x :: x in Executed(l) ==> x in l.results && l.results[x].nodeID == x)
    && (forall x :: x in l.skipped ==> NamesFailure(adj, l.results, l.failed, x))
  }

  // ----- One step

  lemma WorkerArrives(conc: nat, s: Sched, s': Sched, r: NodeResult)
    requires WorkerStep(conc, s, s')
    ensures Arrived(s', r) <==> Arrived(s, r) || FinishStep(s, r, s')
  {
    hide Keeps;
    if TakeStep(s, s') || LaunchStep(conc, s, s') || ExitStep(s, s') {
      assert s'.done == s.done && s'.ledger == s.ledger;
      assert !FinishStep(s, r, s');
    } else {
      var sent :| FinishStep(s, sent, s');
      assert s'.done == s.done + [sent];
      assert FinishStep(s, r, s') ==> s'.done[|s.done|] == r;
    }
  }

  /** The main loop stores the result `r` and keeps what it had executed before. */
  ghost predicate Stores(l: Ledger, r: NodeResult, l': Ledger) {
    && Executed(l') == Executed(l) + {r.nodeID} && r.nodeID !in Executed(l)
    && r.nodeID in l'.results && l'.results[r.nodeID] == r
    && (forall x :: x in Executed(l) ==> x in l.results)
    && (forall x :: x in l.results && x != r.nodeID ==> x in l'.results && l'.results[x] == l.results[x])
  }

  lemma StoresKeeps(l: Ledger, first: NodeResult, l': Ledger, r: NodeResult)
    requires Stores(l, first, l')
    ensures Keeps(l', r) <==> Keeps(l, r) || r == first
  {
    hide Executed;
  }

  lemma MainArrives(s: Sched, s': Sched, r: NodeResult)
    requires s.done != [] && s'.done == s.done[1..] && Stores(s.ledger, s.done[0], s'.ledger)
    ensures Arrived(s', r) <==> Arrived(s, r)
  {
    StoresKeeps(s.ledger, s.done[0], s'.ledger, r);
    assert s.done == [s.done[0]] + s.done[1..];
    hide Keeps, Stores;
  }

  /** Skips are as before, or new and naming the failed node. */
  ghost predicate Blamed(adj: Adjacency, l: Ledger, l': Ledger, id: NodeID) {
    && l.failed <= l'.failed && id !in l.skipped
    && forall x :: x in l'.skipped ==>
      || (x in l.skipped && x != id)
      || (id in l'.failed && Reaches(adj, x, id)
          && x in l'.results && l'.results[x] == NodeResult(x, Skipped, "dependency " + id + " failed"))
  }

  lemma StoresLabels(adj: Adjacency, l: Ledger, r: NodeResult, l': Ledger)
    requires Stores(l, r, l') && Blamed(adj, l, l', r.nodeID)
    ensures Labelled(adj, l) ==> Labelled(adj, l')
  {
    hide Reaches, Executed;
    if Labelled(adj, l) {
      forall x | x in l'.skipped ensures NamesFailure(adj, l'.results, l'.failed, x) {
        if x in l.skipped && x != r.nodeID {
          assert NamesFailure(adj, l.results, l.failed, x);
        }
      }
    }
  }

  lemma DoneStores(adj: Adjacency, prior: Results, l: Ledger, r: NodeResult, freed: seq<NodeID>, l': Ledger)
    requires SettleDone(adj, l, r, freed, l') && Recorded(prior, l) && r.nodeID !in Settled(l)
    ensures Stores(l, r, l') && Blamed(adj, l, l', r.nodeID)
  {
    DoneSets(adj, l, r, freed, l');
    hide Decremented, Freed, Reaches, KeepsPrior;
  }

  lemma DoneArrives(adj: Adjacency, conc: nat, prior: Results, s: Sched, freed: seq<NodeID>, s': Sched, r: NodeResult)
    requires Inv(adj, conc, prior, s) && MainDone(adj, s, freed, s')
    ensures Arrived(s', r) <==> Arrived(s, r)
    ensures Labelled(adj, s.ledger) ==> Labelled(adj, s'.ledger)
  {
    var first := s.done[0];
    TakeDone(s);
    FlightOf(adj, Active(s), Settled(s.ledger), first.nodeID);
    hide Active, Settled, Recorded, InFlight, SettleDone, Launches, Pool, Labelled, Arrived;
    DoneStores(adj, prior, s.ledger, first, freed, s'.ledger);
    MainArrives(s, s', r);
    StoresLabels(adj, s.ledger, first, s'.ledger);
  }

  /** A failure stores the result received and leaves all earlier entries. */
  lemma FailureKeeps(adj: Adjacency, l: Ledger, r: NodeResult, l': Ledger)
    requires SettleFailed(adj, l, r, l')
    ensures r.nodeID in l'.results && l'.results[r.nodeID] == r
    ensures forall x :: x in l.results && x != r.nodeID ==> x in l'.results && l'.results[x] == l.results[x]
    ensures Executed(l') == Executed(l) + {r.nodeID}
  {
    var skips := Skips(adj, l, r);
    FailedSets(l, r, l', skips);
    SkipsUnknown(adj, l, r);
    hide Skips, Executed;
    forall x | x in l.results || x == r.nodeID ensures x in l'.results && l'.results[x] == l.results[r.nodeID := r][x] {
      WithSkipsAt(l.results[r.nodeID := r], skips, r.nodeID, x);
    }
  }

  lemma SkipsUnknown(adj: Adjacency, l: Ledger, r: NodeResult)
    ensures forall x :: x in Skips(adj, l, r) ==> x !in l.results && x != r.nodeID
  {
    forall x | x in Skips(adj, l, r) ensures x !in l.results && x != r.nodeID {
      var y := SkipFirstStep(adj, l.results.Keys + {r.nodeID}, r.nodeID, x);
    }
  }

  /** The entries of the nodes it skips name the failed node. */
  lemma FailureNames(adj: Adjacency, l: Ledger, r: NodeResult, l': Ledger)
    requires SettleFailed(adj, l, r, l')
    ensures forall x :: x in Skips(adj, l, r) ==>
      && x in l'.results && Reaches(adj, x, r.nodeID)
      && l'.results[x] == NodeResult(x, Skipped, "dependency " + r.nodeID + " failed")
  {
    var known, skips := l.results.Keys + {r.nodeID}, Skips(adj, l, r);
    forall x | x in skips ensures Reaches(adj, x, r.nodeID) {
      var y := SkipFirstStep(adj, known, r.nodeID, x);
    }
    hide Skips;
  }

  lemma FailedStores(adj: Adjacency, prior: Results, l: Ledger, r: NodeResult, l': Ledger)
    requires SettleFailed(adj, l, r, l') && Recorded(prior, l) && r.nodeID !in Settled(l)
    ensures Stores(l, r, l')
  {
    hide SettleFailed, Recorded, Executed, Settled;
    ExecutedStored(prior, l, r.nodeID);
    FailureKeeps(adj, l, r, l');
  }

  lemma FailedBlames(adj: Adjacency, prior: Results, l: Ledger, r: NodeResult, l': Ledger)
    requires SettleFailed(adj, l, r, l') && Recorded(prior, l) && r.nodeID !in Settled(l)
    ensures Blamed(adj, l, l', r.nodeID)
  {
    ExecutedStored(prior, l, r.nodeID);
    hide SettleSkips, Skips, Reaches, Recorded, Executed, Settled;
    FailureNames(adj, l, r, l');
    FailedAdds(adj, l, r, l');
  }

  lemma ExecutedStored(prior: Results, l: Ledger, id: NodeID)
    requires Recorded(prior, l) && id !in Settled(l)
    ensures forall x :: x in Executed(l) ==> x in l.results
    ensures id !in Executed(l) && id !in l.skipped
  {
    hide KeepsPrior;
  }

  lemma FailedAdds(adj: Adjacency, l: Ledger, r: NodeResult, l': Ledger)
    requires SettleFailed(adj, l, r, l')
    ensures l'.failed == l.failed + {r.nodeID} && l'.skipped == l.skipped + Skips(adj, l, r)
  {
    hide Skips, WithSkips;
  }

  lemma FailedArrives(adj: Adjacency, conc: nat, prior: Results, s: Sched, s': Sched, r: NodeResult)
    requires Inv(adj, conc, prior, s) && MainFailed(adj, s, s')
    ensures Arrived(s', r) <==> Arrived(s, r)
    ensures Labelled(adj, s.ledger) ==> Labelled(adj, s'.ledger)
  {
    var first := s.done[0];
    TakeDone(s);
    FlightOf(adj, Active(s), Settled(s.ledger), first.nodeID);
    hide Active, Settled, Recorded, InFlight, SettleFailed, Launches, Pool, Labelled, Arrived;
    FailedStores(adj, prior, s.ledger, first, s'.ledger);
    FailedBlames(adj, prior, s.ledger, first, s'.ledger);
    MainArrives(s, s', r);
    StoresLabels(adj, s.ledger, first, s'.ledger);
  }

  lemma NextArrives(adj: Adjacency, conc: nat, prior: Results, s: Sched, s': Sched, r: NodeResult)
    requires Closed(adj) && Inv(adj, conc, prior, s) && Next(adj, conc, s, s')
    ensures Arrived(s', r) <==> Arrived(s, r) || FinishStep(s, r, s')
    ensures Labelled(adj, s.ledger) ==> Labelled(adj, s'.ledger)
  {
    hide Inv, Arrived, Labelled, WorkerStep, MainDone;
    if WorkerStep(conc, s, s') {
      WorkerArrives(conc, s, s', r);
      WorkerStepInv(adj, conc, prior, s, s');
    } else {
      OnlyWorkersSend(adj, s, s', r);
      if MainFailed(adj, s, s') {
        FailedArrives(adj, conc, prior, s, s', r);
      } else {
        var freed :| MainDone(adj, s, freed, s');
        DoneArrives(adj, conc, prior, s, freed, s', r);
      }
    }
  }

  lemma OnlyWorkersSend(adj: Adjacency, s: Sched, s': Sched, r: NodeResult)
    requires MainStep(adj, s, s')
    ensures !FinishStep(s, r, s')
  {
    hide SettleDone, SettleFailed;
    assert |s'.done| < |s.done|;
  }

  // ----- Whole runs

  lemma SentLast(run: seq<Sched>, r: NodeResult)
    requires |run| > 1
    ensures var n := |run| - 1; Sent(run, r) <==> Sent(run[..n], r) || FinishStep(run[n - 1], r, run[n])
  {
    hide FinishStep;
    var n := |run| - 1;
    if Sent(run, r) {
      var i, j :| 0 <= i && j == i + 1 && j < |run| && FinishStep(run[i], r, run[j]);
      assert j < n ==> run[..n][i] == run[i] && run[..n][j] == run[j];
    }
    if Sent(run[..n], r) {
      var i, j :| 0 <= i && j == i + 1 && j < n && FinishStep(run[..n][i], r, run[..n][j]);
      assert FinishStep(run[i], r, run[j]);
    }
  }

  /** What was sent is exactly what is in the done channel or stored unaltered. */
  lemma {:induction false} SentArrives(adj: Adjacency, conc: nat, prior: Results, run: seq<Sched>, r: NodeResult)
    requires Closed(adj) && Run(adj, conc, prior, run)
    ensures Sent(run, r) <==> Arrived(run[|run| - 1], r)
    ensures Labelled(adj, run[|run| - 1].ledger)
  {
    hide Inv, Next, Arrived, Labelled, Sent, FinishStep;
    if |run| == 1 {
      NothingSent(adj, prior, run, r);
    } else {
      var n := |run| - 1;
      hide Init;
      SentArrives(adj, conc, prior, run[..n], r);
      RunInv(adj, conc, prior, run[..n]);
      NextArrives(adj, conc, prior, run[n - 1], run[n], r);
      SentLast(run, r);
    }
  }

  lemma NothingSent(adj: Adjacency, prior: Results, run: seq<Sched>, r: NodeResult)
    requires |run| == 1 && Init(adj, prior, run[0])
    ensures !Sent(run, r) && !Arrived(run[0], r) && Labelled(adj, run[0].ledger)
  {
  }

  /** Every node's entry: the one result its worker sent, or a skip that names a node
      that failed and that it depends on. */
  ghost predicate DeliveredAt(adj: Adjacency, run: seq<Sched>, results: Results, x: NodeID) {
    && x in results && results[x].nodeID == x
    && (results[x].status != Skipped ==>
          Sent(run, results[x]) && forall r :: Sent(run, r) && r.nodeID == x ==> r == results[x])
    && (results[x].status == Skipped ==>
          Blames(adj, results, x) && forall r :: Sent(run, r) ==> r.nodeID != x)
  }

  ghost predicate Delivered(adj: Adjacency, run: seq<Sched>, results: Results) {
    forall x :: x in adj ==> DeliveredAt(adj, run, results, x)
  }

  ghost predicate Blames(adj: Adjacency, results: Results, x: NodeID) {
    exists y :: Reaches(adj, x, y) && EndedAs(results, y, Failed)
      && x in results && results[x] == NodeResult(x, Skipped, "dependency " + y + " failed")
  }

  /** A finished run stores, for every node, exactly what its worker sent. */
  lemma {:induction false} StoredAsSent(adj: Adjacency, conc: nat, prior: Results, run: seq<Sched>)
    requires Closed(adj) && Run(adj, conc, prior, run) && run[|run| - 1].ledger.remaining == 0
    ensures Delivered(adj, run, run[|run| - 1].ledger.results)
  {
    var s := run[|run| - 1];
    RunInv(adj, conc, prior, run);
    NothingInFlight(adj, conc, prior, s);
    assert Labelled(adj, s.ledger) && forall r :: Sent(run, r) <==> Keeps(s.ledger, r) by {
      SentArrives(adj, conc, prior, run, NodeResult("", Done, ""));
      forall r ensures Sent(run, r) <==> Keeps(s.ledger, r) {
        SentArrives(adj, conc, prior, run, r);
      }
    }
    hide Run, Sent, Inv, Labelled, Settled, Blames, Keeps, DeliveredAt;
    forall x | x in adj ensures DeliveredAt(adj, run, s.ledger.results, x) {
      EntryOf(adj, conc, prior, s, x);
      DeliveredNode(adj, run, s.ledger, x);
    }
  }

  lemma DeliveredNode(adj: Adjacency, run: seq<Sched>, l: Ledger, x: NodeID)
    requires forall r :: Sent(run, r) <==> Keeps(l, r)
    requires x in l.results && l.results[x].nodeID == x
    requires x in Executed(l) <==> l.results[x].status != Skipped
    requires x !in Executed(l) ==> Blames(adj, l.results, x)
    ensures DeliveredAt(adj, run, l.results, x)
  {
    hide Sent, Blames, Executed;
    assert x in Executed(l) ==> Keeps(l, l.results[x]);
  }

  lemma EntryOf(adj: Adjacency, conc: nat, prior: Results, s: Sched, x: NodeID)
    requires Inv(adj, conc, prior, s) && Labelled(adj, s.ledger) && Settled(s.ledger) == adj.Keys && x in adj
    ensures x in s.ledger.results && s.ledger.results[x].nodeID == x
    ensures x in Executed(s.ledger) <==> s.ledger.results[x].status != Skipped
    ensures x !in Executed(s.ledger) ==> Blames(adj, s.ledger.results, x)
  {
    hide Reaches, InFlight, Counted, Poised, SkipsJustified, Launches, Pool;
    assert x in Settled(s.ledger);
    if x in s.ledger.skipped {
      assert NamesFailure(adj, s.ledger.results, s.ledger.failed, x);
      var y :| y in s.ledger.failed && Reaches(adj, x, y)
        && s.ledger.results[x] == NodeResult(x, Skipped, "dependency " + y + " failed");
      assert EndedAs(s.ledger.results, y, Failed);
    }
  }
}
