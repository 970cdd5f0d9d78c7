/**
  Finite dependency graphs and the longest-predecessor-chain depth of their items.

  A graph is a finite set of items and a list of (parent, child) pairs.  The list may
  repeat a pair and may pair an item with itself, and the graph may be cyclic.
 */
module DependencyGraph {
  import opened Sequences

  type Item(==, !new)

  datatype Graph = Graph(nodes: set<Item>, edges: seq<(Item, Item)>) {
    ghost predicate Valid() {
      forall p, x {:trigger (p, x) in edges} :: (p, x) in edges ==> p in nodes && x in nodes
    }
  }

  /** The items that occur in a list of pairs. */
  ghost function Endpoints(pairs: seq<(Item, Item)>): set<Item> {
    (set i | 0 <= i < |pairs| :: pairs[i].0) + (set i | 0 <= i < |pairs| :: pairs[i].1)
  }

  ghost function FromPairs(pairs: seq<(Item, Item)>): (g: Graph)
    ensures g.Valid()
  {
    Graph(Endpoints(pairs), pairs)
  }

  // ---------------------------------------------------------------- counting edges

  /** How many edges into x have a parent outside gone. */
  ghost function LiveParents(edges: seq<(Item, Item)>, gone: set<Item>, x: Item): nat {
    if edges == [] then 0 else
    var (p, c) := edges[|edges| - 1];
    LiveParents(edges[..|edges| - 1], gone, x) + (if c == x && p !in gone then 1 else 0)
  }

  /** The children of p, in the order and with the repetitions of the pair list. */
  ghost function Successors(edges: seq<(Item, Item)>, p: Item): seq<Item> {
    if edges == [] then [] else
    var (q, c) := edges[|edges| - 1];
    Successors(edges[..|edges| - 1], p) + (if q == p then [c] else [])
  }

  lemma {:induction false} SuccessorsAreEdges(edges: seq<(Item, Item)>, p: Item, x: Item)
    ensures x in Successors(edges, p) <==> (p, x) in edges
  {
    if edges != [] {
      var init := edges[..|edges| - 1];
      var last := edges[|edges| - 1];
      SuccessorsAreEdges(init, p, x);
      assert edges == init + [last];
      assert last == (p, x) <==> last.0 == p && last.1 == x;
    }
  }

  lemma {:induction false} NoLiveParents(edges: seq<(Item, Item)>, gone: set<Item>, x: Item)
    ensures LiveParents(edges, gone, x) == 0 <==> forall p :: (p, x) in edges ==> p in gone
  {
    if edges != [] {
      var init := edges[..|edges| - 1];
      var last := edges[|edges| - 1];
      NoLiveParents(init, gone, x);
      assert edges == init + [last];
      assert last in edges;
      assert last == (last.0, last.1);
    }
  }

  /** Retiring p lowers the count of x by the number of times x is listed under p. */
  lemma {:induction false} RetireParent(edges: seq<(Item, Item)>, gone: set<Item>, p: Item, x: Item)
    requires p !in gone
    ensures LiveParents(edges, gone + {p}, x) == LiveParents(edges, gone, x) - Occurrences(Successors(edges, p), x)
  {
    if edges != [] {
      var init, last := edges[..|edges| - 1], edges[|edges| - 1];
      RetireParent(init, gone, p, x);
      AppendOccurrences(Successors(init, p), last.1, x);
    }
  }

  // ---------------------------------------------------------------- walks and chains

  ghost predicate IsWalk(g: Graph, w: seq<Item>) {
    && |w| >= 1
    && (forall i :: 0 <= i < |w| ==> w[i] in g.nodes)
    && (forall i {:trigger Step(g, w, i)} :: 0 <= i < |w| - 1 ==> Step(g, w, i))
  }

  ghost predicate Step(g: Graph, w: seq<Item>, i: int)
    requires 0 <= i < |w| - 1
  {
    (w[i], w[i + 1]) in g.edges
  }

  /** A chain of k successive predecessors leads to x. */
  ghost predicate HasChain(g: Graph, x: Item, k: nat) {
    exists w {:trigger IsWalk(g, w)} :: IsWalk(g, w) && |w| == k + 1 && w[k] == x
  }

  /** The longest chain of predecessors of x has length k. */
  ghost predicate AtDepth(g: Graph, x: Item, k: nat) {
    HasChain(g, x, k) && !HasChain(g, x, k + 1)
  }

  ghost predicate ClosedWalk(g: Graph, c: seq<Item>) {
    IsWalk(g, c) && |c| >= 2 && c[0] == c[|c| - 1]
  }

  ghost predicate Cyclic(g: Graph) {
    exists c :: ClosedWalk(g, c)
  }

  /** x lies on a cycle or is reachable from one. */
  ghost predicate BelowCycle(g: Graph, x: Item) {
    exists c, w :: Leads(g, c, w, x)
  }

  ghost predicate Leads(g: Graph, c: seq<Item>, w: seq<Item>, x: Item) {
    ClosedWalk(g, c) && IsWalk(g, w) && w[0] == c[0] && w[|w| - 1] == x
  }

  lemma {:induction false} ChainZero(g: Graph, x: Item)
    ensures HasChain(g, x, 0) <==> x in g.nodes
  {
    if x in g.nodes {
      assert IsWalk(g, [x]);
    }
  }

  lemma {:induction false} SubWalk(g: Graph, w: seq<Item>, lo: nat, hi: nat)
    requires IsWalk(g, w) && lo < hi <= |w|
    ensures IsWalk(g, w[lo..hi])
  {
    var v := w[lo..hi];
    forall i | 0 <= i < |v| - 1 ensures Step(g, v, i) {
      assert Step(g, w, lo + i);
    }
  }

  lemma {:induction false} ChainExtend(g: Graph, p: Item, x: Item, k: nat)
    requires g.Valid() && (p, x) in g.edges && HasChain(g, p, k)
    ensures HasChain(g, x, k + 1)
  {
    var w :| IsWalk(g, w) && |w| == k + 1 && w[k] == p;
    var v := w + [x];
    forall i | 0 <= i < |v| - 1 ensures Step(g, v, i) {
      assert i < k ==> Step(g, w, i);
    }
    assert IsWalk(g, v);
  }

  lemma {:induction false} ChainParent(g: Graph, x: Item, k: nat) returns (p: Item)
    requires HasChain(g, x, k + 1)
    ensures (p, x) in g.edges && HasChain(g, p, k)
  {
    var w :| IsWalk(g, w) && |w| == k + 2 && w[k + 1] == x;
    p := w[k];
    assert Step(g, w, k);
    SubWalk(g, w, 0, k + 1);
  }

  lemma {:induction false} ShorterChain(g: Graph, x: Item, j: nat, k: nat)
    requires j <= k && HasChain(g, x, k)
    ensures HasChain(g, x, j)
  {
    var w :| IsWalk(g, w) && |w| == k + 1 && w[k] == x;
    SubWalk(g, w, k - j, k + 1);
  }

  lemma {:induction false} SomeDepth(g: Graph, x: Item, k: nat) returns (d: nat)
    requires HasChain(g, x, 0) && !HasChain(g, x, k)
    ensures AtDepth(g, x, d)
  {
    if !HasChain(g, x, k - 1) {
      d := SomeDepth(g, x, k - 1);
    } else {
      d := k - 1;
    }
  }

  // ---------------------------------------------------------------- cycles and unbounded chains

  ghost predicate HasParentIn(g: Graph, s: set<Item>, y: Item) {
    exists p :: p in s && (p, y) in g.edges
  }

  /** When every item of s has a parent in s, every item of s has chains of every length. */
  lemma {:induction false} SelfSustaining(g: Graph, s: set<Item>, x: Item, k: nat)
    requires g.Valid() && s <= g.nodes && x in s
    requires forall y {:trigger HasParentIn(g, s, y)} :: y in s ==> HasParentIn(g, s, y)
    ensures HasChain(g, x, k)
    decreases k
  {
    if k == 0 {
      ChainZero(g, x);
    } else {
      assert HasParentIn(g, s, x);
      var p :| p in s && (p, x) in g.edges;
      SelfSustaining(g, s, p, k - 1);
      ChainExtend(g, p, x, k - 1);
    }
  }

  /** Pigeonhole: a chain with as many steps as there are items runs through a cycle. */
  lemma {:induction false} LongChainRepeats(g: Graph, x: Item)
    requires HasChain(g, x, |g.nodes|)
    ensures BelowCycle(g, x)
  {
    var n := |g.nodes|;
    var w :| IsWalk(g, w) && |w| == n + 1 && w[n] == x;
    if Distinct(w) {
      DistinctBound(w, g.nodes);
    }
    DistinctIff(w);
    var i, j :| 0 <= i < j < |w| && w[i] == w[j];
    SubWalk(g, w, i, j + 1);
    SubWalk(g, w, i, n + 1);
    assert ClosedWalk(g, w[i..j + 1]);
    assert Leads(g, w[i..j + 1], w[i..n + 1], x);
  }

  /** An item has arbitrarily long predecessor chains exactly when a cycle leads to it. */
  lemma {:induction false} UnboundedIffBelowCycle(g: Graph, x: Item)
    requires g.Valid()
    ensures BelowCycle(g, x) <==> forall k: nat :: HasChain(g, x, k)
  {
    if forall k: nat :: HasChain(g, x, k) {
      LongChainRepeats(g, x);
    }
    if BelowCycle(g, x) {
      var c, w :| Leads(g, c, w, x);
      var s := Items(c) + Items(w);
      ItemsIff(c);
      ItemsIff(w);
      forall y | y in s
        ensures HasParentIn(g, s, y)
      {
        if y in c {
          var i :| 0 <= i < |c| && c[i] == y;
          var p := if i == 0 then c[|c| - 2] else c[i - 1];
          assert Step(g, c, if i == 0 then |c| - 2 else i - 1);
          assert p in s && (p, y) in g.edges;
        } else {
          var i :| 0 <= i < |w| && w[i] == y;
          assert Step(g, w, i - 1);
          assert w[i - 1] in s && (w[i - 1], y) in g.edges;
        }
      }
      forall k: nat ensures HasChain(g, x, k) {
        SelfSustaining(g, s, x, k);
      }
    }
  }

  /** Some item is below a cycle exactly when the graph has a cycle. */
  lemma {:induction false} CyclicIffBelow(g: Graph)
    ensures Cyclic(g) <==> exists x :: x in g.nodes && BelowCycle(g, x)
  {
    if Cyclic(g) {
      var c :| ClosedWalk(g, c);
      assert IsWalk(g, [c[0]]);
      assert Leads(g, c, [c[0]], c[0]);
    }
  }
}
