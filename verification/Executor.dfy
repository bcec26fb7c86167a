/** The executor itself: result store, failure cascade and the scheduling loop,
    proved against the step system for every order of worker completions. */
module Executor {
  import opened Graphs
  import opened NodeGraph
  import opened Schedule
  import opened Interleavings
  import opened Deliveries

  class SharedState {
    var results: Results

    constructor ()
      ensures results == map[]
    {
      results := map[];
    }

    method Set(id: NodeID, r: NodeResult)
      modifies this
      ensures results == old(results)[id := r]
    {
      results := results[id := r];
    }

    method Get(id: NodeID) returns (present: bool)
      ensures present <==> id in results
    {
      present := id in results;
    }
  }

  /** `dependents` lists, for each node, the nodes whose dependency lists name it. */
  ghost predicate ListsDependents(adj: Adjacency, dependents: map<NodeID, seq<NodeID>>) {
    forall d, x :: x in Lookup(dependents, d) <==> Edge(adj, x, d)
  }

  // ----- cascadeSkip

  /** The search so far: `found` are the nodes it has skipped, all of them rightly. */
  ghost predicate CascadeInv(adj: Adjacency, prior: Results, failed: NodeID, results: Results, found: set<NodeID>) {
    results == WithSkips(prior, found, failed) && found <= SkipSet(adj, prior.Keys, failed)
  }

  ghost predicate Handled(adj: Adjacency, results: Results, x: NodeID) {
    forall y :: Edge(adj, y, x) ==> y in results
  }

  /** What has left the queue has had its dependents handled. */
  ghost predicate Swept(adj: Adjacency, failed: NodeID, results: Results, queue: seq<NodeID>, found: set<NodeID>) {
    forall x :: (x == failed || x in found) && x !in queue ==> Handled(adj, results, x)
  }

  /** Once the queue is empty, everything the failure can reach has been found. */
  lemma {:induction false} SweptCovers(adj: Adjacency, prior: Results, failed: NodeID, found: set<NodeID>, p: seq<NodeID>)
    requires Swept(adj, failed, WithSkips(prior, found, failed), [], found)
    requires SkipPath(adj, prior.Keys, failed, p)
    ensures p[0] in found
  {
    var results := WithSkips(prior, found, failed);
    assert Edge(adj, p[0], p[1]);
    if |p| > 2 {
      PathSlice(adj, p, 1, |p|);
      SweptCovers(adj, prior, failed, found, p[1..]);
    }
    assert Handled(adj, results, p[1]);
    assert p[0] in results;
  }

  lemma SweptIsSkipSet(adj: Adjacency, prior: Results, failed: NodeID, results: Results, found: set<NodeID>)
    requires CascadeInv(adj, prior, failed, results, found) && Swept(adj, failed, results, [], found)
    ensures found == SkipSet(adj, prior.Keys, failed)
    ensures results == WithSkips(prior, found, failed)
  {
    hide Swept, WithSkips;
    forall x | x in SkipSet(adj, prior.Keys, failed) ensures x in found {
      var p :| SkipPath(adj, prior.Keys, failed, p) && p[0] == x;
      SweptCovers(adj, prior, failed, found, p);
    }
  }

  lemma SkipOne(adj: Adjacency, prior: Results, failed: NodeID, results: Results, found: set<NodeID>, x: NodeID, id: NodeID)
    requires CascadeInv(adj, prior, failed, results, found)
    requires id == failed || id in found
    requires Edge(adj, x, id) && x !in results
    ensures x !in found
    ensures CascadeInv(adj, prior, failed, results[x := SkipResult(x, failed)], found + {x})
  {
    SkipExtend(adj, prior.Keys, failed, x, id);
    assert WithSkips(prior, found + {x}, failed) == WithSkips(prior, found, failed)[x := SkipResult(x, failed)];
  }

  lemma SweptStep(adj: Adjacency, prior: Results, failed: NodeID, before: Results, id: NodeID, rest: seq<NodeID>, found0: set<NodeID>,
                  after: Results, added: seq<NodeID>, found: set<NodeID>)
    requires Swept(adj, failed, before, [id] + rest, found0)
    requires CascadeInv(adj, prior, failed, before, found0) && CascadeInv(adj, prior, failed, after, found)
    requires Handled(adj, after, id) && Gained(found0, added, found)
    ensures Swept(adj, failed, after, rest + added, found)
    ensures |found0| + |added| == |found| <= |adj.Keys|
    ensures forall x :: x in added ==> x in found
  {
    SubsetCardinality(found, adj.Keys);
    hide SkipSet;
    assert before.Keys <= after.Keys;
    forall x | (x == failed || x in found) && x !in rest + added ensures Handled(adj, after, x) {
      if x != id {
        assert x !in [id] + rest;
        assert Handled(adj, before, x);
      }
    }
  }

  /** Skips one dependent unless it already has a result. */
  method SkipUnlessKnown(depID: NodeID, id: NodeID, failed: NodeID, state: SharedState,
                         ghost adj: Adjacency, ghost prior: Results, ghost found: set<NodeID>)
    returns (skipped: bool)
    requires CascadeInv(adj, prior, failed, state.results, found)
    requires (id == failed || id in found) && Edge(adj, depID, id)
    modifies state
    ensures skipped ==> depID !in found && CascadeInv(adj, prior, failed, state.results, found + {depID})
    ensures !skipped ==> CascadeInv(adj, prior, failed, state.results, found)
    ensures depID in state.results
    ensures forall x :: x in old(state.results) ==> x in state.results
  {
    hide CascadeInv, SkipResult;
    var present := state.Get(depID);
    if present {
      skipped := false;
    } else {
      SkipOne(adj, prior, failed, state.results, found, depID, id);
      state.Set(depID, SkipResult(depID, failed));
      skipped := true;
    }
  }

  /** `found` grew by exactly the entries of `added`. */
  ghost predicate Gained(found0: set<NodeID>, added: seq<NodeID>, found: set<NodeID>) {
    found == found0 + Elems(added) && |found| == |found0| + |added|
  }

  lemma GainedNothing(found: set<NodeID>)
    ensures Gained(found, [], found)
  {
  }

  lemma GainedOne(found0: set<NodeID>, added: seq<NodeID>, found: set<NodeID>, x: NodeID)
    requires Gained(found0, added, found) && x !in found
    ensures Gained(found0, added + [x], found + {x})
  {
    assert Elems(added + [x]) == Elems(added) + {x};
  }

  /** Skips the dependents of one queue entry that have no result; returns them
      in order, for the queue. */
  method SkipDependents(id: NodeID, list: seq<NodeID>, failed: NodeID, state: SharedState,
                        ghost adj: Adjacency, ghost prior: Results, ghost found0: set<NodeID>)
    returns (added: seq<NodeID>, ghost found: set<NodeID>)
    requires CascadeInv(adj, prior, failed, state.results, found0)
    requires id == failed || id in found0
    requires forall x :: x in list <==> Edge(adj, x, id)
    modifies state
    ensures CascadeInv(adj, prior, failed, state.results, found)
    ensures Gained(found0, added, found) && found0 <= found
    ensures Handled(adj, state.results, id)
  {
    hide CascadeInv, Gained, Handled;
    added, found := [], found0;
    GainedNothing(found0);
    for k := 0 to |list|
      invariant CascadeInv(adj, prior, failed, state.results, found)
      invariant Gained(found0, added, found) && found0 <= found
      invariant forall j :: 0 <= j < k ==> list[j] in state.results
    {
      var skipped := SkipUnlessKnown(list[k], id, failed, state, adj, prior, found);
      if skipped {
        GainedOne(found0, added, found, list[k]);
        added, found := added + [list[k]], found + {list[k]};
      }
    }
    HandledList(adj, state.results, id, list);
  }

  lemma HandledList(adj: Adjacency, results: Results, id: NodeID, list: seq<NodeID>)
    requires forall x :: x in list <==> Edge(adj, x, id)
    requires forall j :: 0 <= j < |list| ==> list[j] in results
    ensures Handled(adj, results, id)
  {
  }

  /** Entries that were there stay; each new one says of its own node that the failed one,
      on which it depends, has failed. */
  ghost predicate OnlySkips(adj: Adjacency, was: Results, now: Results, failed: NodeID) {
    && (forall x :: x in was ==> x in now && now[x] == was[x])
    && (forall x :: x in now && x !in was ==>
          Reaches(adj, x, failed) && now[x] == NodeResult(x, Skipped, "dependency " + failed + " failed"))
  }

  lemma CascadeWrites(adj: Adjacency, prior: Results, failed: NodeID)
    ensures OnlySkips(adj, prior, WithSkips(prior, SkipSet(adj, prior.Keys, failed), failed), failed)
  {
    forall x | x in SkipSet(adj, prior.Keys, failed) ensures x !in prior && Reaches(adj, x, failed) {
      var y := SkipFirstStep(adj, prior.Keys, failed, x);
    }
    hide SkipSet, Reaches;
  }

  /** Skips every node that transitively depends on the failed one through
      nodes without results; returns how many. */
  method CascadeSkip(failed: NodeID, dependents: map<NodeID, seq<NodeID>>, state: SharedState, ghost adj: Adjacency)
    returns (skipped: nat)
    requires ListsDependents(adj, dependents)
    modifies state
    ensures state.results == WithSkips(old(state.results), SkipSet(adj, old(state.results).Keys, failed), failed)
    ensures skipped == |SkipSet(adj, old(state.results).Keys, failed)|
    ensures OnlySkips(adj, old(state.results), state.results, failed)
  {
    hide WithSkips, SkipSet, CascadeInv, Swept, Handled, Gained;
    ghost var prior := state.results;
    ghost var found: set<NodeID> := {};
    var queue := [failed];
    skipped := 0;
    CascadeStart(adj, prior, failed);
    while queue != []
      invariant CascadeInv(adj, prior, failed, state.results, found)
      invariant Swept(adj, failed, state.results, queue, found)
      invariant forall x :: x in queue ==> x == failed || x in found
      invariant skipped == |found| <= |adj.Keys|
      decreases 2 * (|adj.Keys| - |found|) + |queue|
    {
      var id := queue[0];
      ghost var found0, before := found, state.results;
      var added;
      added, found := SkipDependents(id, Lookup(dependents, id), failed, state, adj, prior, found);
      skipped := skipped + |added|;
      assert queue == [id] + queue[1..];
      SweptStep(adj, prior, failed, before, id, queue[1..], found0, state.results, added, found);
      queue := queue[1..] + added;
    }
    SweptIsSkipSet(adj, prior, failed, state.results, found);
    CascadeWrites(adj, prior, failed);
  }

  lemma CascadeStart(adj: Adjacency, prior: Results, failed: NodeID)
    ensures CascadeInv(adj, prior, failed, prior, {}) && Swept(adj, failed, prior, [failed], {})
  {
    assert WithSkips(prior, {}, failed) == prior;
  }

  // ----- Execute

  lemma IndexedDependents(g: Graph, dependents: map<NodeID, seq<NodeID>>)
    requires UniqueIds(g) && IndexesLinks(g, dependents)
    ensures ListsDependents(Adj(g), dependents)
  {
    forall d, x ensures x in Lookup(dependents, d) <==> Edge(Adj(g), x, d) {
      assert multiset(Lookup(dependents, d))[x] == Links(g, x, d);
      LinksUnique(g, x, d);
    }
  }

  lemma GraphSize(g: Graph)
    requires UniqueIds(g)
    ensures |Adj(g).Keys| == |g|
  {
    AdjKeys(g);
    IdsNoDup(g);
    IdsElems(g);
    NoDupCardinality(IdsOf(g));
  }

  /** Entries for nodes outside the graph are as before. */
  ghost predicate OthersUnchanged(adj: Adjacency, prior: Results, results: Results) {
    forall x :: x !in adj ==> (x in results <==> x in prior) && (x in results ==> results[x] == prior[x])
  }

  lemma OthersKept(adj: Adjacency, conc: nat, prior: Results, s: Sched)
    requires Inv(adj, conc, prior, s)
    ensures OthersUnchanged(adj, prior, s.ledger.results)
  {
  }

  class GraphExecutor {
    const maxConcurrency: nat

    constructor (requested: int)
      ensures maxConcurrency >= 1 && (requested >= 1 ==> maxConcurrency == requested)
      ensures requested <= 0 ==> maxConcurrency == 8
    {
      maxConcurrency := if requested <= 0 then 8 else requested;
    }

    /** The main loop's handling of a failure. */
    method SettleFailure(r: NodeResult, dependents: map<NodeID, seq<NodeID>>, state: SharedState, ghost adj: Adjacency)
      returns (n: nat, ghost skips: set<NodeID>)
      requires ListsDependents(adj, dependents)
      modifies state
      ensures skips == SkipSet(adj, old(state.results).Keys + {r.nodeID}, r.nodeID) && n == |skips|
      ensures state.results == WithSkips(old(state.results)[r.nodeID := r], skips, r.nodeID)
      ensures OnlySkips(adj, old(state.results)[r.nodeID := r], state.results, r.nodeID)
      ensures r.nodeID in state.results && state.results[r.nodeID] == r
    {
      hide SkipSet, WithSkips;
      state.Set(r.nodeID, r);
      assert state.results.Keys == old(state.results).Keys + {r.nodeID};
      n := CascadeSkip(r.nodeID, dependents, state, adj);
      skips := SkipSet(adj, old(state.results).Keys + {r.nodeID}, r.nodeID);
    }

    /** The main loop's handling of a success. */
    method SettleSuccess(r: NodeResult, dependents: map<NodeID, seq<NodeID>>, state: SharedState,
                         inDegree: map<NodeID, int>, ghost g: Graph)
      returns (degree: map<NodeID, int>, freed: seq<NodeID>)
      requires UniqueIds(g) && IndexesLinks(g, dependents) && inDegree.Keys == Adj(g).Keys
      modifies state
      ensures state.results == old(state.results)[r.nodeID := r]
      ensures Decremented(Adj(g), inDegree, r.nodeID, degree) && Freed(inDegree, degree, freed)
    {
      var list := Lookup(dependents, r.nodeID);
      ListedAreNodes(g, dependents, r.nodeID);
      AdjKeys(g);
      EntriesCounted(g, dependents, r.nodeID);
      hide IndexesLinks, UniqueIds, Ids, Lookup;
      state.Set(r.nodeID, r);
      degree, freed := Release(list, inDegree);
    }

    /** One received result: counts it, stores it, and skips or frees dependents. */
    method Receive(r: NodeResult, dependents: map<NodeID, seq<NodeID>>, state: SharedState,
                   inDegree: map<NodeID, int>, remaining: int, ghost g: Graph, ghost l: Ledger)
      returns (degree: map<NodeID, int>, freed: seq<NodeID>, left: int, ghost l': Ledger)
      requires UniqueIds(g) && IndexesLinks(g, dependents) && inDegree.Keys == Adj(g).Keys
      requires l.results == state.results && l.inDegree == inDegree && l.remaining == remaining
      modifies state
      ensures l'.results == state.results && l'.inDegree == degree && l'.remaining == left
      ensures degree.Keys == Adj(g).Keys
      ensures r.nodeID in state.results && state.results[r.nodeID] == r
      ensures if r.status == Failed then OnlySkips(Adj(g), old(state.results)[r.nodeID := r], state.results, r.nodeID)
              else state.results == old(state.results)[r.nodeID := r]
      ensures r.status == Failed ==> SettleFailed(Adj(g), l, r, l') && freed == []
      ensures r.status != Failed ==> SettleDone(Adj(g), l, r, freed, l')
    {
      IndexedDependents(g, dependents);
      hide UniqueIds, IndexesLinks, ListsDependents, SkipSet, WithSkips, Decremented, Freed, OnlySkips, SettleFailed, SettleDone;
      degree, freed, left := inDegree, [], remaining - 1;
      if r.status == Failed {
        var n;
        ghost var skips;
        n, skips := SettleFailure(r, dependents, state, Adj(g));
        left := left - n;
        l' := Ledger(state.results, degree, left, l.succeeded, l.failed + {r.nodeID}, l.skipped + skips);
        FailedLedger(Adj(g), l, r, skips, l');
      } else {
        degree, freed := SettleSuccess(r, dependents, state, inDegree, g);
        l' := Ledger(state.results, degree, left, l.succeeded + {r.nodeID}, l.failed, l.skipped);
        DegreeKeys(Adj(g), inDegree, r.nodeID, degree);
        DoneLedger(Adj(g), l, r, freed, l');
      }
    }

    /** Runs the graph. The scheduling loop interleaves dispatcher, workers and
        main loop in any order the guards allow; the guards never all fail. */
    method Execute(g: Graph, state: SharedState)
      returns (err: Validation, ghost launched: multiset<NodeID>, ghost run: seq<Sched>)
      requires maxConcurrency >= 1
      requires ValidGraph(g) ==> NoStaleDependents(Adj(g), state.results)
      modifies state
      ensures err == Valid <==> ValidGraph(g)
      ensures err != Valid ==> state.results == old(state.results)
      ensures err == Valid ==> Resolved(Adj(g), state.results, launched)
      ensures err == Valid ==> OthersUnchanged(Adj(g), old(state.results), state.results)
      ensures err == Valid ==>
        && Run(Adj(g), maxConcurrency, old(state.results), run) && run[|run| - 1].ledger.results == state.results
        && Delivered(Adj(g), run, state.results)
    {
      hide Delivered, OnlySkips;
      hide Next, NoStaleDependents, Resolved, OthersUnchanged, Init, Run, IndexesLinks, Cyclic, UniqueIds, KnownDeps, Closed;
      hide Inv, FailuresSpread, SettleDone, SettleFailed;
      err := Validate(g);
      launched, run := multiset{}, [];
      if err != Valid {
        return;
      }
      ghost var adj, prior := Adj(g), state.results;
      KnownIsClosed(g);
      AdjKeys(g);
      GraphSize(g);
      var nodeMap, inDegree, dependents := IndexGraph(g);
      var ready := Roots(g, inDegree);
      var held, running, releasing, done := Nobody, multiset{}, 0, [];
      var remaining := |g|;
      ghost var l := Ledger(prior, inDegree, remaining, {}, {}, {});
      ghost var s := Sched(l, ready, held, running, releasing, done, launched);
      RootsInit(g, prior, s);
      run := [s];
      while remaining > 0
        invariant |run| > 0 && Run(adj, maxConcurrency, prior, run) && s == run[|run| - 1]
        invariant s == Sched(l, ready, held, running, releasing, done, launched)
        invariant l.results == state.results && l.inDegree == inDegree && l.remaining == remaining
        invariant inDegree.Keys == adj.Keys
        decreases 6 * |adj.Keys| + 1 - |run|
      {
        NotIdle(adj, maxConcurrency, prior, run);
        ghost var s': Sched;
        if {
          case ready != [] && held.Nobody? =>
            held, ready := Holding(ready[0]), ready[1..];
            s' := Sched(l, ready, held, running, releasing, done, launched);
            WorkerIsNext(adj, maxConcurrency, s, s');
          case held.Holding? && |running| + releasing < maxConcurrency =>
            running, launched, held := running + multiset{held.id}, launched + multiset{held.id}, Nobody;
            s' := Sched(l, ready, held, running, releasing, done, launched);
            WorkerIsNext(adj, maxConcurrency, s, s');
          case |running| > 0 =>
            var id :| id in running;
            var succeeds: bool := *;
            var text: string := *;
            var r := NodeResult(id, if succeeds then Done else Failed, text);
            running, done, releasing := running - multiset{id}, done + [r], releasing + 1;
            s' := Sched(l, ready, held, running, releasing, done, launched);
            FinishIsNext(adj, maxConcurrency, s, r, s');
          case releasing > 0 =>
            releasing := releasing - 1;
            s' := Sched(l, ready, held, running, releasing, done, launched);
            WorkerIsNext(adj, maxConcurrency, s, s');
          case done != [] =>
            var r := done[0];
            done := done[1..];
            var freed;
            inDegree, freed, remaining, l := Receive(r, dependents, state, inDegree, remaining, g, l);
            ready := ready + freed;
            s' := Sched(l, ready, held, running, releasing, done, launched);
            MainIsNext(adj, maxConcurrency, s, freed, s');
        }
        RunGrows(adj, maxConcurrency, prior, run, s');
        s, run := s', run + [s'];
      }
      RunFinished(adj, maxConcurrency, prior, run);
      while releasing > 0 {
        releasing := releasing - 1;
      }
    }
  }

  lemma EntriesCounted(g: Graph, dependents: map<NodeID, seq<NodeID>>, d: NodeID)
    requires UniqueIds(g) && IndexesLinks(g, dependents)
    ensures forall x :: x in Adj(g) ==> multiset(Lookup(dependents, d))[x] == multiset(Adj(g)[x])[d]
  {
    forall x | x in Adj(g) ensures multiset(Lookup(dependents, d))[x] == multiset(Adj(g)[x])[d] {
      assert multiset(Lookup(dependents, d))[x] == Links(g, x, d);
      LinksUnique(g, x, d);
    }
  }

  lemma FailedLedger(adj: Adjacency, l: Ledger, r: NodeResult, skips: set<NodeID>, l': Ledger)
    requires skips == SkipSet(adj, l.results.Keys + {r.nodeID}, r.nodeID)
    requires l' == Ledger(WithSkips(l.results[r.nodeID := r], skips, r.nodeID), l.inDegree, l.remaining - 1 - |skips|,
                          l.succeeded, l.failed + {r.nodeID}, l.skipped + skips)
    ensures SettleFailed(adj, l, r, l')
  {
    hide SkipSet, WithSkips;
  }

  lemma DoneLedger(adj: Adjacency, l: Ledger, r: NodeResult, freed: seq<NodeID>, l': Ledger)
    requires Decremented(adj, l.inDegree, r.nodeID, l'.inDegree) && Freed(l.inDegree, l'.inDegree, freed)
    requires l' == Ledger(l.results[r.nodeID := r], l'.inDegree, l.remaining - 1,
                          l.succeeded + {r.nodeID}, l.failed, l.skipped)
    ensures SettleDone(adj, l, r, freed, l')
  {
    hide Decremented, Freed;
  }

  lemma DegreeKeys(adj: Adjacency, degree: map<NodeID, int>, id: NodeID, degree': map<NodeID, int>)
    requires Decremented(adj, degree, id, degree')
    ensures degree'.Keys == adj.Keys
  {
  }

  lemma RootsInit(g: Graph, prior: Results, s: Sched)
    requires UniqueIds(g) && s.ledger.inDegree.Keys == Adj(g).Keys && |Adj(g).Keys| == |g|
    requires forall x :: x in Adj(g) ==> s.ledger.inDegree[x] == |Adj(g)[x]|
    requires forall x :: x in s.ready <==> x in s.ledger.inDegree && s.ledger.inDegree[x] == 0
    requires NoDup(s.ready)
    requires s == Sched(Ledger(prior, s.ledger.inDegree, |g|, {}, {}, {}), s.ready, Nobody, multiset{}, 0, [], multiset{})
    ensures Init(Adj(g), prior, s)
    ensures forall conc :: Run(Adj(g), conc, prior, [s])
  {
  }

  lemma WorkerIsNext(adj: Adjacency, conc: nat, s: Sched, s': Sched)
    requires TakeStep(s, s') || LaunchStep(conc, s, s') || ExitStep(s, s')
    ensures Next(adj, conc, s, s')
  {
    hide TakeStep, LaunchStep, ExitStep;
  }

  lemma FinishIsNext(adj: Adjacency, conc: nat, s: Sched, r: NodeResult, s': Sched)
    requires FinishStep(s, r, s')
    ensures Next(adj, conc, s, s')
  {
    hide FinishStep;
  }

  lemma MainIsNext(adj: Adjacency, conc: nat, s: Sched, freed: seq<NodeID>, s': Sched)
    requires s.done != []
    requires s.done[0].status == Failed ==> SettleFailed(adj, s.ledger, s.done[0], s'.ledger) && freed == []
    requires s.done[0].status != Failed ==> SettleDone(adj, s.ledger, s.done[0], freed, s'.ledger)
    requires s' == Sched(s'.ledger, s.ready + freed, s.held, s.running, s.releasing, s.done[1..], s.launched)
    ensures Next(adj, conc, s, s')
  {
    hide SettleDone, SettleFailed;
    if s.done[0].status == Failed {
      assert MainFailed(adj, s, s');
    } else {
      assert MainDone(adj, s, freed, s');
    }
  }

  lemma RemainingNonnegative(adj: Adjacency, conc: nat, prior: Results, s: Sched)
    requires Inv(adj, conc, prior, s)
    ensures s.ledger.remaining >= 0
  {
    SubsetCardinality(Settled(s.ledger), adj.Keys);
  }

  lemma RunGrows(adj: Adjacency, conc: nat, prior: Results, run: seq<Sched>, s: Sched)
    requires Closed(adj) && |run| > 0 && Run(adj, conc, prior, run) && Next(adj, conc, run[|run| - 1], s)
    ensures Run(adj, conc, prior, run + [s]) && |run| <= 6 * |adj.Keys|
  {
    hide Next, Run;
    RunExtend(adj, conc, prior, run, s);
    RunsAreBounded(adj, conc, prior, run + [s]);
  }

  /** What the main loop has achieved when it stops. */
  lemma RunFinished(adj: Adjacency, conc: nat, prior: Results, run: seq<Sched>)
    requires Closed(adj) && |run| > 0 && Run(adj, conc, prior, run) && run[|run| - 1].ledger.remaining <= 0
    ensures var s := run[|run| - 1];
      && Resolved(adj, s.ledger.results, s.launched) && OthersUnchanged(adj, prior, s.ledger.results)
      && Delivered(adj, run, s.ledger.results)
  {
    var s := run[|run| - 1];
    RunInv(adj, conc, prior, run);
    hide Run, Inv, Resolved, OthersUnchanged, Delivered;
    RemainingNonnegative(adj, conc, prior, s);
    Resolves(adj, conc, prior, s);
    OthersKept(adj, conc, prior, s);
    StoredAsSent(adj, conc, prior, run);
  }

  /** Between two main-loop iterations some guard of the scheduling loop is open. */
  lemma NotIdle(adj: Adjacency, conc: nat, prior: Results, run: seq<Sched>)
    requires Closed(adj) && !Cyclic(adj) && NoStaleDependents(adj, prior)
    requires |run| > 0 && Run(adj, conc, prior, run) && run[|run| - 1].ledger.remaining > 0
    ensures Busy(run[|run| - 1])
  {
    var s := run[|run| - 1];
    RunInv(adj, conc, prior, run);
    hide NoStaleDependents, FailuresSpread, Run;
    Progress(adj, prior, s.ledger, Active(s));
    ActiveIsBusy(s);
  }
}
