/** Structural checks on a node graph: validation by three-colour depth-first
    search and Kahn's topological sort. */
module NodeGraph {
  import opened Graphs

  /** `work` stands for the prompt, model, tools and options of a node. */
  datatype NodeDef = NodeDef(id: NodeID, dependsOn: seq<NodeID>, work: string)

  type Graph = seq<NodeDef>

  datatype Validation =
    | Valid
    | DuplicateID(id: NodeID)
    | UnknownDependency(node: NodeID, dep: NodeID)
    | CycleDetected

  ghost function Ids(g: Graph): set<NodeID> {
    set i | 0 <= i < |g| :: g[i].id
  }

  ghost predicate UniqueIds(g: Graph) {
    forall i, j :: 0 <= i < j < |g| ==> g[i].id != g[j].id
  }

  ghost predicate KnownDeps(g: Graph) {
    forall i, d :: 0 <= i < |g| && d in g[i].dependsOn ==> d in Ids(g)
  }

  /** The dependency relation: a later node overwrites an earlier one of the same ID. */
  function Adj(g: Graph): Adjacency {
    if g == [] then map[]
    else Adj(g[..|g| - 1])[g[|g| - 1].id := g[|g| - 1].dependsOn]
  }

  ghost predicate ValidGraph(g: Graph) {
    UniqueIds(g) && KnownDeps(g) && !Cyclic(Adj(g))
  }

  lemma {:induction false} AdjKeys(g: Graph)
    ensures Adj(g).Keys == Ids(g)
  {
    if g != [] {
      AdjKeys(g[..|g| - 1]);
      assert forall i :: 0 <= i < |g| ==> g[i].id in Ids(g);
      assert Ids(g) == Ids(g[..|g| - 1]) + {g[|g| - 1].id};
    }
  }

  lemma {:induction false} AdjAt(g: Graph, i: nat)
    requires UniqueIds(g) && i < |g|
    ensures g[i].id in Adj(g) && Adj(g)[g[i].id] == g[i].dependsOn
  {
    if i < |g| - 1 {
      AdjAt(g[..|g| - 1], i);
    }
  }

  lemma NodeOf(g: Graph, x: NodeID) returns (i: nat)
    requires UniqueIds(g) && x in Adj(g)
    ensures i < |g| && g[i].id == x && Adj(g)[x] == g[i].dependsOn
  {
    AdjKeys(g);
    i :| 0 <= i < |g| && g[i].id == x;
    AdjAt(g, i);
  }

  lemma KnownIsClosed(g: Graph)
    requires UniqueIds(g)
    ensures KnownDeps(g) <==> Closed(Adj(g))
  {
    AdjKeys(g);
    if KnownDeps(g) {
      forall a, b | Edge(Adj(g), a, b) ensures b in Adj(g) {
        var i := NodeOf(g, a);
      }
    }
    if Closed(Adj(g)) {
      forall i, d | 0 <= i < |g| && d in g[i].dependsOn ensures d in Ids(g) {
        AdjAt(g, i);
        assert Edge(Adj(g), g[i].id, d);
      }
    }
  }

  // ----- Validate

  datatype Color = White | Gray | Black

  function ColorIn(color: map<NodeID, Color>, id: NodeID): Color {
    if id in color then color[id] else White
  }

  /** Gray is exactly the current path, and the black nodes are in topological order. */
  ghost predicate Searching(adj: Adjacency, color: map<NodeID, Color>, finished: seq<NodeID>, stack: seq<NodeID>) {
    && Closed(adj)
    && Topological(adj, finished)
    && (forall x :: ColorIn(color, x) == Gray <==> x in stack)
    && (forall x :: ColorIn(color, x) == Black <==> x in finished)
    && (forall x :: x in color ==> color[x] != White && x in adj)
  }

  lemma Enter(adj: Adjacency, color: map<NodeID, Color>, finished: seq<NodeID>, stack: seq<NodeID>, id: NodeID)
    requires Searching(adj, color, finished, stack) && ColorIn(color, id) == White && id in adj
    ensures Searching(adj, color[id := Gray], finished, stack + [id])
    ensures id !in stack && id !in color
  {
  }

  lemma Leave(adj: Adjacency, color: map<NodeID, Color>, finished: seq<NodeID>, stack: seq<NodeID>, id: NodeID)
    requires Searching(adj, color, finished, stack + [id]) && id !in stack
    requires id in adj && forall d :: d in adj[id] ==> ColorIn(color, d) == Black
    ensures Searching(adj, color[id := Black], finished + [id], stack)
  {
    assert id in stack + [id];
    TopologicalFinish(adj, finished, id);
    hide Topological;
    var after := color[id := Black];
    forall x ensures ColorIn(after, x) == Gray <==> x in stack {
      assert x in stack + [id] <==> x in stack || x == id;
    }
    forall x ensures ColorIn(after, x) == Black <==> x in finished + [id] {
      assert x in finished + [id] <==> x in finished || x == id;
    }
  }

  /** Black nodes stay black while more nodes finish. */
  lemma BlackStays(adj: Adjacency, color: map<NodeID, Color>, finished: seq<NodeID>, stack: seq<NodeID>,
                   color': map<NodeID, Color>, finished': seq<NodeID>, nodes: seq<NodeID>)
    requires Searching(adj, color, finished, stack) && Searching(adj, color', finished', stack) && finished <= finished'
    requires forall d :: d in nodes ==> ColorIn(color, d) == Black
    ensures forall d :: d in nodes ==> ColorIn(color', d) == Black
  {
    forall d | d in nodes ensures ColorIn(color', d) == Black {
      assert d in finished;
      assert d in finished';
    }
  }

  lemma TopologicalFinish(adj: Adjacency, finished: seq<NodeID>, id: NodeID)
    requires Topological(adj, finished) && id in adj && id !in finished
    requires forall d :: d in adj[id] ==> d in finished
    ensures Topological(adj, finished + [id])
  {
    assert (finished + [id])[..|finished|] == finished;
  }

  /** The closure state of the recursive search: `color`, with absent meaning
      white. `finished` lists the black nodes in the order they turned black. */
  class CycleFinder {
    const adj: Adjacency
    var color: map<NodeID, Color>
    ghost var finished: seq<NodeID>

    constructor (adj: Adjacency)
      ensures this.adj == adj && color == map[] && finished == []
    {
      this.adj := adj;
      color := map[];
      finished := [];
    }

    function ColorOf(id: NodeID): Color
      reads this
    {
      ColorIn(color, id)
    }

    ghost predicate Inv(stack: seq<NodeID>)
      reads this
    {
      Searching(adj, color, finished, stack)
    }

    method HasCycle(id: NodeID, ghost stack: seq<NodeID>) returns (found: bool)
      requires Inv(stack) && ColorOf(id) == White && id in adj
      requires Path(adj, stack + [id])
      modifies this
      ensures found ==> Cyclic(adj)
      ensures !found ==> Inv(stack) && ColorOf(id) == Black
      ensures !found ==> old(finished) <= finished && old(color).Keys <= color.Keys
      decreases adj.Keys - color.Keys
    {
      hide Searching, Topological, Closed, Cyclic;
      Enter(adj, color, finished, stack, id);
      color := color[id := Gray];
      ghost var path := stack + [id];
      ghost var before := color.Keys;
      for k := 0 to |adj[id]|
        invariant Inv(path)
        invariant forall d :: d in adj[id][..k] ==> ColorOf(d) == Black
        invariant old(finished) <= finished && before <= color.Keys
      {
        var dep := adj[id][k];
        assert Edge(adj, id, dep);
        if ColorOf(dep) == Gray {
          GrayOnPath(adj, color, finished, path, dep);
          CycleOnPath(adj, path, dep);
          return true;
        }
        if ColorOf(dep) == White {
          PathAppend(adj, path, dep);
          AdjOfEdge(adj, color, finished, path, id, dep);
          ghost var was, done := color, finished;
          assert id in before && id in adj.Keys - old(color).Keys;
          found := HasCycle(dep, path);
          if found {
            return true;
          }
          BlackStays(adj, was, done, path, color, finished, adj[id][..k]);
        }
      }
      assert adj[id][..|adj[id]|] == adj[id];
      Leave(adj, color, finished, stack, id);
      color := color[id := Black];
      finished := finished + [id];
      return false;
    }
  }

  lemma GrayOnPath(adj: Adjacency, color: map<NodeID, Color>, finished: seq<NodeID>, path: seq<NodeID>, dep: NodeID)
    requires Searching(adj, color, finished, path) && ColorIn(color, dep) == Gray
    ensures dep in path
  {
  }

  lemma AdjOfEdge(adj: Adjacency, color: map<NodeID, Color>, finished: seq<NodeID>, path: seq<NodeID>, id: NodeID, dep: NodeID)
    requires Searching(adj, color, finished, path) && Edge(adj, id, dep)
    ensures dep in adj && color.Keys <= adj.Keys
  {
  }

  lemma CycleOnPath(adj: Adjacency, path: seq<NodeID>, dep: NodeID)
    requires Path(adj, path) && dep in path && Edge(adj, path[|path| - 1], dep)
    ensures Cyclic(adj)
  {
    var j :| 0 <= j < |path| && path[j] == dep;
    PathSlice(adj, path, j, |path|);
    PathAppend(adj, path[j..], dep);
    assert PathBetween(adj, path[j..] + [dep], dep, dep);
    assert Reaches(adj, dep, dep);
  }

  method FindDuplicate(g: Graph) returns (r: Validation, ids: set<NodeID>)
    ensures r == Valid || r.DuplicateID?
    ensures r == Valid <==> UniqueIds(g)
    ensures r == Valid ==> ids == Ids(g)
    ensures r.DuplicateID? ==> exists i, j :: 0 <= i < j < |g| && g[i].id == g[j].id == r.id
  {
    ids := {};
    for i := 0 to |g|
      invariant forall x :: x in ids <==> exists k :: 0 <= k < i && g[k].id == x
      invariant forall k, j :: 0 <= k < j < i ==> g[k].id != g[j].id
    {
      if g[i].id in ids {
        return DuplicateID(g[i].id), ids;
      }
      ids := ids + {g[i].id};
    }
    r := Valid;
  }

  method FindUnknown(g: Graph, ids: set<NodeID>) returns (r: Validation)
    requires UniqueIds(g) && ids == Ids(g)
    ensures r == Valid || r.UnknownDependency?
    ensures r == Valid <==> KnownDeps(g)
    ensures r.UnknownDependency? ==> r.dep !in Ids(g) && Edge(Adj(g), r.node, r.dep)
  {
    for i := 0 to |g|
      invariant forall k, d :: 0 <= k < i && d in g[k].dependsOn ==> d in ids
    {
      for j := 0 to |g[i].dependsOn|
        invariant forall d :: d in g[i].dependsOn[..j] ==> d in ids
      {
        var dep := g[i].dependsOn[j];
        if dep !in ids {
          AdjAt(g, i);
          return UnknownDependency(g[i].id, dep);
        }
      }
      assert g[i].dependsOn[..|g[i].dependsOn|] == g[i].dependsOn;
    }
    r := Valid;
  }

  method BuildAdjacency(g: Graph) returns (adj: Adjacency)
    ensures adj == Adj(g)
  {
    adj := map[];
    for i := 0 to |g|
      invariant adj == Adj(g[..i])
    {
      adj := adj[g[i].id := g[i].dependsOn];
      assert g[..i + 1][..i] == g[..i];
    }
    assert g[..|g|] == g;
  }

  method FindCycle(g: Graph, adj: Adjacency) returns (found: bool)
    requires UniqueIds(g) && adj == Adj(g) && Closed(adj)
    ensures found <==> Cyclic(adj)
  {
    AdjKeys(g);
    var finder := new CycleFinder(adj);
    for i := 0 to |g|
      invariant finder.adj == adj && finder.Inv([])
      invariant forall k :: 0 <= k < i ==> g[k].id in finder.finished
    {
      assert g[i].id in adj by { AdjAt(g, i); }
      if finder.ColorOf(g[i].id) == White {
        assert Path(adj, [] + [g[i].id]);
        found := finder.HasCycle(g[i].id, []);
        if found {
          return true;
        }
      }
    }
    OrderedIsAcyclic(adj, finder.finished);
    return false;
  }

  /** Reports the first structural error, in the order the checks are made. */
  method Validate(g: Graph) returns (r: Validation)
    ensures r == Valid <==> ValidGraph(g)
    ensures r.DuplicateID? <==> !UniqueIds(g)
    ensures r.DuplicateID? ==> exists i, j :: 0 <= i < j < |g| && g[i].id == g[j].id == r.id
    ensures r.UnknownDependency? <==> UniqueIds(g) && !KnownDeps(g)
    ensures r.UnknownDependency? ==> r.dep !in Ids(g) && Edge(Adj(g), r.node, r.dep)
    ensures r.CycleDetected? <==> UniqueIds(g) && KnownDeps(g) && Cyclic(Adj(g))
  {
    var ids;
    r, ids := FindDuplicate(g);
    if r != Valid {
      return;
    }
    r := FindUnknown(g, ids);
    if r != Valid {
      return;
    }
    KnownIsClosed(g);
    var adj := BuildAdjacency(g);
    var found := FindCycle(g, adj);
    r := if found then CycleDetected else Valid;
  }

  // ----- Edge index shared by the sort and the executor

  /** How many dependency entries of nodes named `x` name `d`. */
  ghost function Links(g: Graph, x: NodeID, d: NodeID): nat {
    if g == [] then 0
    else
      var n := g[|g| - 1];
      Links(g[..|g| - 1], x, d) + if n.id == x then multiset(n.dependsOn)[d] else 0
  }

  lemma {:induction false} LinksAbsent(g: Graph, x: NodeID, d: NodeID)
    requires x !in Ids(g)
    ensures Links(g, x, d) == 0
  {
    if g != [] {
      assert g[|g| - 1].id in Ids(g);
      assert forall i :: 0 <= i < |g| - 1 ==> g[i].id in Ids(g);
      LinksAbsent(g[..|g| - 1], x, d);
    }
  }

  lemma {:induction false} LinksUnique(g: Graph, x: NodeID, d: NodeID)
    requires UniqueIds(g)
    ensures Links(g, x, d) == if x in Adj(g) then multiset(Adj(g)[x])[d] else 0
  {
    if g != [] {
      var n := g[|g| - 1];
      if n.id == x {
        LinksAbsent(g[..|g| - 1], x, d);
      } else {
        LinksUnique(g[..|g| - 1], x, d);
      }
    }
  }

  function Lookup(m: map<NodeID, seq<NodeID>>, d: NodeID): seq<NodeID> {
    if d in m then m[d] else []
  }

  /** `dependents[d]` lists `x` once per entry of `x` that names `d`. */
  ghost predicate IndexesLinks(g: Graph, dependents: map<NodeID, seq<NodeID>>) {
    forall d, x :: multiset(Lookup(dependents, d))[x] == Links(g, x, d)
  }

  function AddAll(m: map<NodeID, seq<NodeID>>, id: NodeID, deps: seq<NodeID>): map<NodeID, seq<NodeID>> {
    if deps == [] then m
    else
      var dep, rest := deps[|deps| - 1], AddAll(m, id, deps[..|deps| - 1]);
      rest[dep := Lookup(rest, dep) + [id]]
  }

  lemma {:induction false} AddAllCounts(m: map<NodeID, seq<NodeID>>, id: NodeID, deps: seq<NodeID>, d: NodeID, x: NodeID)
    ensures multiset(Lookup(AddAll(m, id, deps), d))[x]
         == multiset(Lookup(m, d))[x] + if x == id then multiset(deps)[d] else 0
  {
    if deps != [] {
      var dep, init := deps[|deps| - 1], deps[..|deps| - 1];
      AddAllCounts(m, id, init, d, x);
      assert deps == init + [dep];
      if d == dep {
        assert Lookup(AddAll(m, id, deps), d) == Lookup(AddAll(m, id, init), d) + [id];
      }
    }
  }

  lemma AddAllIndexes(g: Graph, n: NodeDef, m: map<NodeID, seq<NodeID>>)
    requires IndexesLinks(g, m)
    ensures IndexesLinks(g + [n], AddAll(m, n.id, n.dependsOn))
  {
    assert (g + [n])[..|g|] == g;
    forall d, x ensures multiset(Lookup(AddAll(m, n.id, n.dependsOn), d))[x] == Links(g + [n], x, d) {
      AddAllCounts(m, n.id, n.dependsOn, d, x);
    }
  }

  method AddDependents(n: NodeDef, m: map<NodeID, seq<NodeID>>) returns (dependents: map<NodeID, seq<NodeID>>)
    ensures dependents == AddAll(m, n.id, n.dependsOn)
  {
    dependents := m;
    for k := 0 to |n.dependsOn|
      invariant dependents == AddAll(m, n.id, n.dependsOn[..k])
    {
      var dep := n.dependsOn[k];
      dependents := dependents[dep := Lookup(dependents, dep) + [n.id]];
      assert n.dependsOn[..k + 1][..k] == n.dependsOn[..k];
    }
    assert n.dependsOn[..|n.dependsOn|] == n.dependsOn;
  }

  method IndexGraph(g: Graph)
    returns (nodeMap: map<NodeID, NodeDef>, inDegree: map<NodeID, int>, dependents: map<NodeID, seq<NodeID>>)
    ensures nodeMap.Keys == inDegree.Keys == Adj(g).Keys
    ensures forall x :: x in nodeMap ==> nodeMap[x] in g && nodeMap[x].id == x
    ensures forall x :: x in inDegree ==> inDegree[x] == |Adj(g)[x]|
    ensures IndexesLinks(g, dependents)
  {
    nodeMap, inDegree, dependents := map[], map[], map[];
    for i := 0 to |g|
      invariant nodeMap.Keys == inDegree.Keys == Adj(g[..i]).Keys
      invariant forall x :: x in nodeMap ==> nodeMap[x] in g && nodeMap[x].id == x
      invariant forall x :: x in inDegree ==> inDegree[x] == |Adj(g[..i])[x]|
      invariant IndexesLinks(g[..i], dependents)
    {
      var n := g[i];
      nodeMap := nodeMap[n.id := n];
      inDegree := inDegree[n.id := |n.dependsOn|];
      AddAllIndexes(g[..i], n, dependents);
      dependents := AddDependents(n, dependents);
      assert g[..i + 1] == g[..i] + [n] && g[..i + 1][..i] == g[..i];
    }
    assert g[..|g|] == g;
  }

  /** Decrements the counter of every listed node; reports each node whose
      counter reaches zero, once, in the order it happens. */
  method Release(list: seq<NodeID>, inDegree: map<NodeID, int>)
    returns (degree: map<NodeID, int>, freed: seq<NodeID>)
    requires forall x :: x in list ==> x in inDegree
    ensures degree.Keys == inDegree.Keys
    ensures forall x :: x in inDegree ==> degree[x] == inDegree[x] - multiset(list)[x]
    ensures forall x :: x in freed <==> x in inDegree && inDegree[x] > 0 >= degree[x]
    ensures NoDup(freed)
  {
    degree, freed := inDegree, [];
    for i := 0 to |list|
      invariant degree.Keys == inDegree.Keys
      invariant forall x :: x in inDegree ==> degree[x] == inDegree[x] - multiset(list[..i])[x]
      invariant forall x :: x in freed <==> x in inDegree && inDegree[x] > 0 >= degree[x]
      invariant NoDup(freed)
    {
      var x := list[i];
      assert list[..i + 1] == list[..i] + [x];
      degree := degree[x := degree[x] - 1];
      if degree[x] == 0 {
        freed := freed + [x];
      }
    }
    assert list[..|list|] == list;
  }

  // ----- topologicalSort

  ghost function IdsOf(sorted: seq<NodeDef>): seq<NodeID> {
    seq(|sorted|, i requires 0 <= i < |sorted| => sorted[i].id)
  }

  /** Kahn's loop state: `sorted` is a topological prefix; the queue holds the
      unsorted nodes with no unsorted dependency; counters count the rest. */
  ghost predicate KahnInv(g: Graph, sorted: seq<NodeDef>, queue: seq<NodeID>, degree: map<NodeID, int>)
  {
    var adj, done := Adj(g), IdsOf(sorted);
    && degree.Keys == adj.Keys
    && NoDup(done + queue)
    && Topological(adj, done)
    && (forall x :: x in adj ==> degree[x] == Pending(adj[x], Elems(done)))
    && (forall x :: x in adj && degree[x] == 0 <==> x in done + queue)
    && (forall i :: 0 <= i < |sorted| ==> sorted[i] in g)
  }

  lemma NoDupConcat<T>(a: seq<T>, b: seq<T>)
    requires NoDup(a) && NoDup(b) && Elems(a) !! Elems(b)
    ensures NoDup(a + b)
  {
    forall i, j | 0 <= i < j < |a + b| ensures (a + b)[i] != (a + b)[j] {
      if i < |a| <= j {
        assert a[i] in Elems(a) && b[j - |a|] in Elems(b);
      }
    }
  }

  lemma TopologicalAppend(adj: Adjacency, done: seq<NodeID>, id: NodeID)
    requires Topological(adj, done) && id in adj && Pending(adj[id], Elems(done)) == 0
    ensures Topological(adj, done + [id])
  {
    PendingZero(adj[id], Elems(done));
    var order := done + [id];
    forall i, d | 0 <= i < |order| && Edge(adj, order[i], d) ensures d in order[..i] {
      if i == |done| {
        assert order[..i] == done;
      } else {
        assert order[i] == done[i] && order[..i] == done[..i];
      }
    }
  }

  lemma KahnStep(g: Graph, sorted: seq<NodeDef>, queue: seq<NodeID>, degree: map<NodeID, int>,
                 node: NodeDef, list: seq<NodeID>, degree': map<NodeID, int>, freed: seq<NodeID>)
    requires UniqueIds(g) && KahnInv(g, sorted, queue, degree)
    requires queue != [] && node in g && node.id == queue[0]
    requires forall x :: multiset(list)[x] == Links(g, x, queue[0])
    requires degree'.Keys == degree.Keys && NoDup(freed)
    requires forall x :: x in degree ==> degree'[x] == degree[x] - multiset(list)[x]
    requires forall x :: x in freed <==> x in degree && degree[x] > 0 >= degree'[x]
    ensures KahnInv(g, sorted + [node], queue[1..] + freed, degree')
  {
    var adj, id := Adj(g), queue[0];
    var done, done' := IdsOf(sorted), IdsOf(sorted + [node]);
    var open, open' := done + queue, done' + (queue[1..] + freed);
    assert done' == done + [id];
    assert open' == open + freed;
    assert open[|done|] == id;
    assert id in open;
    assert id !in done by {
      assert forall i :: 0 <= i < |done| ==> open[i] == done[i];
    }
    forall x | x in adj ensures degree'[x] == Pending(adj[x], Elems(done')) {
      LinksUnique(g, x, id);
      PendingAdd(adj[x], Elems(done), id);
      assert Elems(done') == Elems(done) + {id};
    }
    TopologicalAppend(adj, done, id);
    NoDupConcat(open, freed);
    forall x ensures x in adj && degree'[x] == 0 <==> x in open' {
      if x in open {
        assert degree[x] == 0;
      }
    }
  }

  lemma IdsElems(g: Graph)
    ensures Elems(IdsOf(g)) == Ids(g)
  {
    forall x | x in Ids(g) ensures x in IdsOf(g) {
      var i :| 0 <= i < |g| && g[i].id == x;
      assert IdsOf(g)[i] == x;
    }
  }

  lemma SortedCount(g: Graph, sorted: seq<NodeDef>)
    requires UniqueIds(g) && NoDup(IdsOf(sorted))
    requires Elems(IdsOf(sorted)) <= Adj(g).Keys
    ensures |sorted| == |g| <==> Elems(IdsOf(sorted)) == Adj(g).Keys
  {
    AdjKeys(g);
    IdsNoDup(g);
    IdsElems(g);
    NoDupCardinality(IdsOf(g));
    NoDupCardinality(IdsOf(sorted));
    SubsetCardinality(Elems(IdsOf(sorted)), Adj(g).Keys);
  }

  lemma TopologicalCloses(adj: Adjacency, order: seq<NodeID>)
    requires Topological(adj, order) && Elems(order) == adj.Keys
    ensures Closed(adj) && !Cyclic(adj)
  {
    forall a, b | Edge(adj, a, b) ensures b in adj {
      assert a in Elems(order);
      var i :| 0 <= i < |order| && order[i] == a;
      assert b in order[..i];
      assert b in Elems(order);
    }
    OrderedIsAcyclic(adj, order);
  }

  lemma ReadyAllDone(adj: Adjacency, done: seq<NodeID>)
    requires Closed(adj) && !Cyclic(adj)
    requires forall x :: x in adj && Pending(adj[x], Elems(done)) == 0 ==> x in done
    ensures adj.Keys <= Elems(done)
  {
    var rest := set x | x in adj && x !in done;
    if rest == {} {
      forall x | x in adj.Keys ensures x in Elems(done) {
        assert x !in rest;
      }
    } else {
      var x := MinimalNode(adj, rest);
      forall d | d in adj[x] ensures d in Elems(done) {
        assert Edge(adj, x, d);
        assert d !in rest;
      }
      PendingZero(adj[x], Elems(done));
      assert false;
    }
  }

  /** When the queue runs dry, what is left unsorted contains a cycle or an
      unknown dependency, and conversely. */
  lemma KahnEnd(g: Graph, sorted: seq<NodeDef>, degree: map<NodeID, int>)
    requires UniqueIds(g) && KahnInv(g, sorted, [], degree)
    ensures |sorted| == |g| <==> KnownDeps(g) && !Cyclic(Adj(g))
  {
    var adj, done := Adj(g), IdsOf(sorted);
    assert done + [] == done;
    SortedCount(g, sorted);
    KnownIsClosed(g);
    if |sorted| == |g| {
      TopologicalCloses(adj, done);
    }
    if KnownDeps(g) && !Cyclic(adj) {
      assert forall x :: x in adj ==> (degree[x] == 0 <==> x in done);
      ReadyAllDone(adj, done);
    }
  }

  lemma IdsNoDup(g: Graph)
    requires UniqueIds(g)
    ensures NoDup(IdsOf(g))
  {
  }

  lemma SortedPermutes(g: Graph, sorted: seq<NodeDef>)
    requires UniqueIds(g) && NoDup(IdsOf(sorted)) && |sorted| == |g|
    requires forall i :: 0 <= i < |sorted| ==> sorted[i] in g
    ensures multiset(sorted) == multiset(g)
  {
    assert NoDup(sorted) by {
      forall i, j | 0 <= i < j < |sorted| ensures sorted[i] != sorted[j] {
        assert IdsOf(sorted)[i] != IdsOf(sorted)[j];
      }
    }
    NoDupCardinality(sorted);
    NoDupCardinality(g);
    SubsetCardinality(Elems(sorted), Elems(g));
    NoDupPermutation(sorted, g);
  }

  ghost function Blocked(degree: map<NodeID, int>): set<NodeID> {
    set x | x in degree && degree[x] > 0
  }

  method Roots(g: Graph, inDegree: map<NodeID, int>) returns (queue: seq<NodeID>)
    requires inDegree.Keys == Ids(g)
    ensures forall x :: x in queue <==> x in inDegree && inDegree[x] == 0
    ensures UniqueIds(g) ==> NoDup(queue)
  {
    queue := [];
    for i := 0 to |g|
      invariant forall x :: x in queue <==> exists k :: 0 <= k < i && g[k].id == x && inDegree[x] == 0
      invariant UniqueIds(g) ==> NoDup(queue)
    {
      assert g[i].id in Ids(g);
      if inDegree[g[i].id] == 0 {
        queue := queue + [g[i].id];
      }
    }
  }

  lemma KahnStart(g: Graph, queue: seq<NodeID>, inDegree: map<NodeID, int>)
    requires UniqueIds(g) && inDegree.Keys == Adj(g).Keys
    requires forall x :: x in inDegree ==> inDegree[x] == |Adj(g)[x]|
    requires forall x :: x in queue <==> x in inDegree && inDegree[x] == 0
    requires NoDup(queue)
    ensures KahnInv(g, [], queue, inDegree)
  {
    forall x | x in inDegree ensures inDegree[x] == Pending(Adj(g)[x], {}) {
      PendingEmpty(Adj(g)[x]);
    }
    assert IdsOf([]) + queue == queue;
    assert Elems(IdsOf([])) == {};
  }

  lemma ListedAreNodes(g: Graph, dependents: map<NodeID, seq<NodeID>>, id: NodeID)
    requires IndexesLinks(g, dependents)
    ensures forall x :: x in Lookup(dependents, id) ==> x in Ids(g)
  {
    var list := Lookup(dependents, id);
    forall x | x in list ensures x in Ids(g) {
      assert multiset(list)[x] == Links(g, x, id);
      if x !in Ids(g) {
        LinksAbsent(g, x, id);
      }
    }
  }

  /** Returns no order exactly when the graph has a cycle or an unknown
      dependency, provided IDs are unique; terminates on every graph. */
  method TopologicalSort(g: Graph) returns (ok: bool, sorted: seq<NodeDef>)
    ensures !ok ==> sorted == []
    ensures UniqueIds(g) ==> (ok <==> KnownDeps(g) && !Cyclic(Adj(g)))
    ensures UniqueIds(g) && ok ==> multiset(sorted) == multiset(g)
    ensures UniqueIds(g) && ok ==> Topological(Adj(g), IdsOf(sorted))
  {
    var nodeMap, inDegree, dependents := IndexGraph(g);
    AdjKeys(g);
    var queue := Roots(g, inDegree);
    sorted := [];
    if UniqueIds(g) {
      KahnStart(g, queue, inDegree);
    }
    while queue != []
      invariant inDegree.Keys == nodeMap.Keys
      invariant forall x :: x in queue ==> x in nodeMap
      invariant UniqueIds(g) ==> KahnInv(g, sorted, queue, inDegree)
      decreases |Blocked(inDegree)| + |queue|
    {
      var id := queue[0];
      var list := Lookup(dependents, id);
      ListedAreNodes(g, dependents, id);
      var degree, freed := Release(list, inDegree);
      if UniqueIds(g) {
        KahnStep(g, sorted, queue, inDegree, nodeMap[id], list, degree, freed);
      }
      BlockedShrinks(inDegree, degree, freed);
      sorted := sorted + [nodeMap[id]];
      queue, inDegree := queue[1..] + freed, degree;
    }
    if UniqueIds(g) {
      KahnEnd(g, sorted, inDegree);
      assert IdsOf(sorted) + [] == IdsOf(sorted);
      if |sorted| == |g| {
        SortedPermutes(g, sorted);
      }
    }
    ok := |sorted| == |g|;
    if !ok {
      sorted := [];
    }
  }

  lemma BlockedShrinks(before: map<NodeID, int>, after: map<NodeID, int>, freed: seq<NodeID>)
    requires before.Keys == after.Keys && NoDup(freed)
    requires forall x :: x in before ==> after[x] <= before[x]
    requires forall x :: x in freed <==> x in before && before[x] > 0 >= after[x]
    ensures |Blocked(after)| + |freed| == |Blocked(before)|
  {
    NoDupCardinality(freed);
    assert Blocked(before) == Blocked(after) + Elems(freed);
  }
}
