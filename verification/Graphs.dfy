/** Dependency relations between node IDs: paths, cycles and orders, independent
    of any algorithm that explores them. */
module Graphs {
  type NodeID = string

  /** Each node's dependency list, as written; entries may repeat. */
  type Adjacency = map<NodeID, seq<NodeID>>

  ghost predicate Edge(adj: Adjacency, a: NodeID, b: NodeID) {
    a in adj && b in adj[a]
  }

  ghost predicate Closed(adj: Adjacency) {
    forall a, b :: Edge(adj, a, b) ==> b in adj
  }

  ghost predicate Path(adj: Adjacency, p: seq<NodeID>) {
    && |p| > 0
    && forall i, j :: 0 <= i && j == i + 1 && j < |p| ==> Edge(adj, p[i], p[j])
  }

  ghost predicate PathBetween(adj: Adjacency, p: seq<NodeID>, a: NodeID, b: NodeID) {
    Path(adj, p) && p[0] == a && p[|p| - 1] == b
  }

  /** `a` depends on `b`, directly or through others. */
  ghost predicate Reaches(adj: Adjacency, a: NodeID, b: NodeID) {
    exists p :: |p| >= 2 && PathBetween(adj, p, a, b)
  }

  ghost predicate Cyclic(adj: Adjacency) {
    exists a :: Reaches(adj, a, a)
  }

  ghost predicate NoDup<T>(s: seq<T>) {
    forall i, j :: 0 <= i < j < |s| ==> s[i] != s[j]
  }

  function Elems<T>(s: seq<T>): set<T> {
    set x | x in s
  }

  /** Every entry comes after all the nodes it depends on. */
  ghost predicate Topological(adj: Adjacency, order: seq<NodeID>) {
    forall i, d :: 0 <= i < |order| && Edge(adj, order[i], d) ==> d in order[..i]
  }

  lemma NoDupCardinality<T>(s: seq<T>)
    requires NoDup(s)
    ensures |Elems(s)| == |s|
  {
    if s != [] {
      var n := |s| - 1;
      NoDupCardinality(s[..n]);
      assert Elems(s) == Elems(s[..n]) + {s[n]};
    }
  }

  lemma SubsetCardinality<T>(a: set<T>, b: set<T>)
    requires a <= b
    ensures |a| <= |b|
    ensures |a| == |b| ==> a == b
  {
    assert b == a + (b - a);
  }

  /** Two duplicate-free sequences over the same elements are permutations. */
  lemma NoDupPermutation<T>(s: seq<T>, t: seq<T>)
    requires NoDup(s) && NoDup(t)
    requires Elems(s) == Elems(t)
    ensures multiset(s) == multiset(t)
  {
    forall x ensures multiset(s)[x] == multiset(t)[x] {
      NoDupCount(s, x);
      NoDupCount(t, x);
      assert x in Elems(s) <==> x in Elems(t);
    }
  }

  lemma NoDupCount<T>(s: seq<T>, x: T)
    requires NoDup(s)
    ensures multiset(s)[x] == if x in s then 1 else 0
  {
    if s != [] {
      var n := |s| - 1;
      NoDupCount(s[..n], x);
      assert s == s[..n] + [s[n]];
    }
  }

  lemma PathSlice(adj: Adjacency, p: seq<NodeID>, i: nat, j: nat)
    requires Path(adj, p) && i < j <= |p|
    ensures Path(adj, p[i..j])
  {
    var q := p[i..j];
    forall a, b | 0 <= a && b == a + 1 && b < |q| ensures Edge(adj, q[a], q[b]) {
      assert q[a] == p[i + a] && q[b] == p[i + b];
    }
  }

  lemma PathAppend(adj: Adjacency, p: seq<NodeID>, b: NodeID)
    requires Path(adj, p) && Edge(adj, p[|p| - 1], b)
    ensures Path(adj, p + [b])
  {
  }

  lemma PathPrepend(adj: Adjacency, a: NodeID, p: seq<NodeID>)
    requires Path(adj, p) && Edge(adj, a, p[0])
    ensures Path(adj, [a] + p)
  {
    var q := [a] + p;
    forall i, j | 0 <= i && j == i + 1 && j < |q| ensures Edge(adj, q[i], q[j]) {
      if i > 0 {
        assert q[i] == p[i - 1] && q[j] == p[j - 1];
      }
    }
  }

  ghost function FirstIndex(s: seq<NodeID>, x: NodeID): (i: nat)
    requires x in s
    ensures i < |s| && s[i] == x && x !in s[..i]
  {
    if s[0] == x then 0 else 1 + FirstIndex(s[1..], x)
  }

  /** Along a path, positions in a topological order strictly fall. */
  lemma {:induction false} OrderDescends(adj: Adjacency, order: seq<NodeID>, p: seq<NodeID>)
    requires Topological(adj, order) && Path(adj, p) && p[0] in order
    ensures p[|p| - 1] in order
    ensures FirstIndex(order, p[|p| - 1]) + |p| - 1 <= FirstIndex(order, p[0])
  {
    if |p| > 1 {
      var i := FirstIndex(order, p[0]);
      assert Edge(adj, p[0], p[1]);
      assert p[1] in order[..i];
      PathSlice(adj, p, 1, |p|);
      FirstIndexBelow(order, p[1], i);
      OrderDescends(adj, order, p[1..]);
    }
  }

  lemma FirstIndexBelow(s: seq<NodeID>, x: NodeID, n: nat)
    requires n <= |s| && x in s[..n]
    ensures FirstIndex(s, x) < n
  {
  }

  /** A topological order over all nodes rules out every cycle. */
  lemma OrderedIsAcyclic(adj: Adjacency, order: seq<NodeID>)
    requires Topological(adj, order) && adj.Keys <= Elems(order)
    ensures !Cyclic(adj)
  {
    if Cyclic(adj) {
      var a :| Reaches(adj, a, a);
      var p :| |p| >= 2 && PathBetween(adj, p, a, a);
      assert Edge(adj, p[0], p[1]);
      assert a in Elems(order);
      OrderDescends(adj, order, p);
    }
  }

  lemma Pigeonhole(s: set<NodeID>, p: seq<NodeID>)
    requires |p| > |s| && forall i :: 0 <= i < |p| ==> p[i] in s
    ensures !NoDup(p)
  {
    if NoDup(p) {
      NoDupCardinality(p);
      assert Elems(p) <= s;
      SubsetCardinality(Elems(p), s);
    }
  }

  ghost predicate DependsInto(adj: Adjacency, x: NodeID, s: set<NodeID>) {
    exists d :: d in s && Edge(adj, x, d)
  }

  /** If every node of `s` depends on a node of `s`, paths inside `s` never end. */
  lemma {:induction false} Walk(adj: Adjacency, s: set<NodeID>, n: nat) returns (p: seq<NodeID>)
    requires s != {} && forall x :: x in s ==> DependsInto(adj, x, s)
    ensures |p| == n + 1 && Path(adj, p) && forall i :: 0 <= i < |p| ==> p[i] in s
  {
    if n == 0 {
      var x :| x in s;
      p := [x];
    } else {
      p := Walk(adj, s, n - 1);
      assert DependsInto(adj, p[|p| - 1], s);
      var d :| d in s && Edge(adj, p[|p| - 1], d);
      PathAppend(adj, p, d);
      p := p + [d];
    }
  }

  lemma RepeatIsCycle(adj: Adjacency, p: seq<NodeID>)
    requires Path(adj, p) && !NoDup(p)
    ensures Cyclic(adj)
  {
    var i, j :| 0 <= i < j < |p| && p[i] == p[j];
    PathSlice(adj, p, i, j + 1);
    var q := p[i..j + 1];
    assert PathBetween(adj, q, p[i], p[i]);
    assert Reaches(adj, p[i], p[i]);
  }

  lemma NoMinimumIsCyclic(adj: Adjacency, s: set<NodeID>)
    requires s != {} && forall x :: x in s ==> DependsInto(adj, x, s)
    ensures Cyclic(adj)
  {
    var p := Walk(adj, s, |s|);
    Pigeonhole(s, p);
    RepeatIsCycle(adj, p);
  }

  /** In an acyclic relation every nonempty set has a node that depends on
      nothing inside the set. */
  lemma MinimalNode(adj: Adjacency, s: set<NodeID>) returns (x: NodeID)
    requires !Cyclic(adj) && s != {}
    ensures x in s && forall d :: Edge(adj, x, d) ==> d !in s
  {
    if forall x :: x in s ==> DependsInto(adj, x, s) {
      NoMinimumIsCyclic(adj, s);
    }
    x :| x in s && !DependsInto(adj, x, s);
  }

  /** Dependency entries still outside `done`, counted with repetition. */
  function Pending(deps: seq<NodeID>, done: set<NodeID>): nat {
    if deps == [] then 0
    else Pending(deps[1..], done) + if deps[0] in done then 0 else 1
  }

  lemma {:induction false} PendingZero(deps: seq<NodeID>, done: set<NodeID>)
    ensures Pending(deps, done) == 0 <==> forall d :: d in deps ==> d in done
  {
    if deps != [] {
      PendingZero(deps[1..], done);
      assert deps == [deps[0]] + deps[1..];
    }
  }

  lemma {:induction false} PendingEmpty(deps: seq<NodeID>)
    ensures Pending(deps, {}) == |deps|
  {
    if deps != [] {
      PendingEmpty(deps[1..]);
    }
  }

  /** Finishing `d` settles every entry that names it, duplicates included. */
  lemma {:induction false} PendingAdd(deps: seq<NodeID>, done: set<NodeID>, d: NodeID)
    requires d !in done
    ensures Pending(deps, done + {d}) == Pending(deps, done) - multiset(deps)[d]
  {
    if deps != [] {
      PendingAdd(deps[1..], done, d);
      assert deps == [deps[0]] + deps[1..];
    }
  }
}
