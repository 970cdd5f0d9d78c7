/**
  Enumerating the cycles of a parent -> children table with a stack of paths.

  The table may list children that are not keys and may repeat a child.  The order in which
  the dictionary lists its keys is a parameter: the results hold for every order.
 */
module FindCycles {
  import opened Sequences
  import opened DependencyGraph
  import opened Rotation

  type Table = map<Item, seq<Item>>

  // ---------------------------------------------------------------- specification

  ghost predicate Edge(t: Table, a: Item, b: Item) {
    a in t && b in t[a]
  }

  ghost predicate Hop(t: Table, p: seq<Item>, i: int)
    requires 0 <= i < |p| - 1
  {
    Edge(t, p[i], p[i + 1])
  }

  /** A path no item of which repeats. */
  ghost predicate SimplePath(t: Table, p: seq<Item>) {
    && p != [] && Distinct(p)
    && (forall i {:trigger Hop(t, p, i)} :: 0 <= i < |p| - 1 ==> Hop(t, p, i))
  }

  /** A simple path whose last item is a parent of its first. */
  ghost predicate IsCycle(t: Table, c: seq<Item>) {
    SimplePath(t, c) && Edge(t, c[|c| - 1], c[0])
  }

  /** The cycle c is among those reported, up to where it starts. */
  ghost predicate Reported(cycles: seq<seq<Item>>, c: seq<Item>) {
    exists i :: 0 <= i < |cycles| && Rotated(cycles[i], c)
  }

  /** Every list is a cycle that is not a rotation of an earlier one. */
  ghost predicate CyclesOnce(t: Table, cycles: seq<seq<Item>>) {
    cycles != [] ==>
      var n := |cycles| - 1;
      IsCycle(t, cycles[n]) && !Reported(cycles[..n], cycles[n]) && CyclesOnce(t, cycles[..n])
  }

  lemma {:induction false} CyclesOnceAt(t: Table, cycles: seq<seq<Item>>, i: nat, j: nat)
    requires CyclesOnce(t, cycles) && i < |cycles| && j < |cycles|
    ensures IsCycle(t, cycles[i])
    ensures Rotated(cycles[i], cycles[j]) ==> i == j
  {
    var n := |cycles| - 1;
    var init := cycles[..n];
    if i < n && j < n {
      CyclesOnceAt(t, init, i, j);
    } else if i < n {
      CyclesOnceAt(t, init, i, i);
      assert cycles[i] == init[i];
    } else if j < n && Rotated(cycles[n], cycles[j]) {
      assert cycles[j] == init[j];
      RotatedBack(cycles[n], cycles[j]);
    }
  }

  // ---------------------------------------------------------------- paths

  lemma {:induction false} SubPath(t: Table, p: seq<Item>, lo: nat, hi: nat)
    requires SimplePath(t, p) && lo < hi <= |p|
    ensures SimplePath(t, p[lo..hi])
  {
    var q := p[lo..hi];
    DistinctIff(p);
    DistinctIff(q);
    forall i | 0 <= i < |q| - 1 ensures Hop(t, q, i) {
      assert Hop(t, p, lo + i);
    }
  }

  lemma {:induction false} JoinPaths(t: Table, p: seq<Item>, q: seq<Item>)
    requires p == [] || SimplePath(t, p)
    requires SimplePath(t, q) && (p != [] ==> Edge(t, p[|p| - 1], q[0]))
    requires forall x :: x in q ==> x !in p
    ensures SimplePath(t, p + q)
  {
    var r := p + q;
    DistinctIff(p);
    DistinctIff(q);
    forall i, j | 0 <= i < j < |r| ensures r[i] != r[j] {
      if i < |p| <= j {
        assert r[j] in q && r[i] in p;
      }
    }
    DistinctIff(r);
    forall i | 0 <= i < |r| - 1 ensures Hop(t, r, i) {
      if i + 1 < |p| {
        assert Hop(t, p, i);
      } else if i >= |p| {
        assert Hop(t, q, i - |p|);
      }
    }
  }

  lemma {:induction false} PushedPath(t: Table, p: seq<Item>, child: Item)
    requires SimplePath(t, p) && Edge(t, p[|p| - 1], child) && child !in p
    ensures SimplePath(t, p + [child])
  {
    JoinPaths(t, p, [child]);
  }

  /** The back edge from the end of a path into it closes a cycle. */
  lemma {:induction false} ClosedPath(t: Table, p: seq<Item>, k: nat)
    requires SimplePath(t, p) && k < |p| && Edge(t, p[|p| - 1], p[k])
    ensures IsCycle(t, p[k..])
  {
    SubPath(t, p, k, |p|);
    assert p[k..|p|] == p[k..];
  }

  // ---------------------------------------------------------------- what has been explored

  ghost predicate Covered(paths: seq<seq<Item>>, p: seq<Item>) {
    exists i :: 0 <= i < |paths| && paths[i] <= p
  }

  /** Every cycle that an edge out of the end of p closes has been reported. */
  ghost predicate Closed(t: Table, cycles: seq<seq<Item>>, p: seq<Item>) {
    forall k :: 0 <= k < |p| && Edge(t, p[|p| - 1], p[k]) ==> Reported(cycles, p[k..])
  }

  /** Every simple path from s still has a prefix on the stack, or is closed. */
  ghost predicate Explored(t: Table, s: Item, paths: seq<seq<Item>>, cycles: seq<seq<Item>>) {
    forall p {:trigger ExploredPath(t, paths, cycles, p)} ::
      SimplePath(t, p) && p[0] == s ==> ExploredPath(t, paths, cycles, p)
  }

  ghost predicate ExploredPath(t: Table, paths: seq<seq<Item>>, cycles: seq<seq<Item>>, p: seq<Item>) {
    Covered(paths, p) || Closed(t, cycles, p)
  }

  ghost predicate PathsFrom(t: Table, s: Item, paths: seq<seq<Item>>) {
    paths != [] ==>
      var n := |paths| - 1;
      SimplePath(t, paths[n]) && paths[n][0] == s && PathsFrom(t, s, paths[..n])
  }

  /** While the children of the popped path q are looked at, n of them done. */
  ghost predicate Extending(t: Table, s: Item, q: seq<Item>, n: nat, paths: seq<seq<Item>>, cycles: seq<seq<Item>>)
    requires q != [] && q[|q| - 1] in t && n <= |t[q[|q| - 1]]|
  {
    && (forall p {:trigger ExploredPath(t, paths, cycles, p)} :: SimplePath(t, p) && p[0] == s ==>
          ExploredPath(t, paths, cycles, p) || p == q || ExtendsBy(q, p, t[q[|q| - 1]][n..]))
    && (forall k {:trigger q[k..]} :: 0 <= k < |q| && q[k] in t[q[|q| - 1]][..n] ==> Reported(cycles, q[k..]))
  }

  ghost predicate ExtendsBy(q: seq<Item>, p: seq<Item>, kids: seq<Item>) {
    q < p && p[|q|] in kids
  }

  lemma {:induction false} StillReported(cycles: seq<seq<Item>>, more: seq<seq<Item>>, c: seq<Item>)
    requires Reported(cycles, c) && cycles <= more
    ensures Reported(more, c)
  {
    var i :| 0 <= i < |cycles| && Rotated(cycles[i], c);
    assert more[i] == cycles[i];
  }

  lemma {:induction false} StillClosed(t: Table, cycles: seq<seq<Item>>, more: seq<seq<Item>>, p: seq<Item>)
    requires Closed(t, cycles, p) && cycles <= more
    ensures Closed(t, more, p)
  {
    forall k | 0 <= k < |p| && Edge(t, p[|p| - 1], p[k]) ensures Reported(more, p[k..]) {
      StillReported(cycles, more, p[k..]);
    }
  }

  lemma {:induction false} StillCovered(paths: seq<seq<Item>>, more: seq<seq<Item>>, p: seq<Item>)
    requires Covered(paths, p) && paths <= more
    ensures Covered(more, p)
  {
    var i :| 0 <= i < |paths| && paths[i] <= p;
    assert more[i] == paths[i];
  }

  /** Popping: what the popped path covered is the path itself and its extensions by some child. */
  lemma {:induction false} Popped(t: Table, s: Item, paths: seq<seq<Item>>, cycles: seq<seq<Item>>)
    requires paths != [] && PathsFrom(t, s, paths) && Explored(t, s, paths, cycles)
    ensures var q := paths[|paths| - 1];
      var rest := paths[..|paths| - 1];
      PathsFrom(t, s, rest) && SimplePath(t, q) && q[0] == s &&
      if q[|q| - 1] in t then Extending(t, s, q, 0, rest, cycles) else Explored(t, s, rest, cycles)
  {
    var q, rest := paths[|paths| - 1], paths[..|paths| - 1];
    if q[|q| - 1] in t {
      var kids := t[q[|q| - 1]];
      assert kids[0..] == kids;
      forall p | SimplePath(t, p) && p[0] == s
        ensures ExploredPath(t, rest, cycles, p) || p == q || ExtendsBy(q, p, kids[0..])
      {
        assert ExploredPath(t, paths, cycles, p);
        PoppedPath(t, paths, p);
      }
    } else {
      forall p | SimplePath(t, p) && p[0] == s
        ensures ExploredPath(t, rest, cycles, p)
      {
        assert ExploredPath(t, paths, cycles, p);
        PoppedPath(t, paths, p);
        if p == q {
          assert Closed(t, cycles, p);
        }
      }
    }
  }

  lemma {:induction false} PoppedPath(t: Table, paths: seq<seq<Item>>, p: seq<Item>)
    requires paths != [] && paths[|paths| - 1] != [] && SimplePath(t, p)
    ensures var q := paths[|paths| - 1];
      Covered(paths, p) ==>
        || Covered(paths[..|paths| - 1], p)
        || p == q || (q < p && Edge(t, q[|q| - 1], p[|q|]))
  {
    if Covered(paths, p) {
      var n := |paths| - 1;
      var q, rest := paths[n], paths[..n];
      var i :| 0 <= i < |paths| && paths[i] <= p;
      if i < n {
        assert rest[i] <= p;
      } else if p != q {
        assert Hop(t, p, |q| - 1);
      }
    }
  }

  /** The child closes a cycle. */
  lemma {:induction false} ChildCloses(t: Table, s: Item, q: seq<Item>, n: nat, k: nat, paths: seq<seq<Item>>,
                                       cycles: seq<seq<Item>>, more: seq<seq<Item>>)
    requires q != [] && q[|q| - 1] in t && n < |t[q[|q| - 1]]| && Distinct(q)
    requires Extending(t, s, q, n, paths, cycles) && cycles <= more
    requires k < |q| && q[k] == t[q[|q| - 1]][n] && Reported(more, q[k..])
    ensures Extending(t, s, q, n + 1, paths, more)
  {
    var kids := t[q[|q| - 1]];
    assert kids[..n + 1] == kids[..n] + [kids[n]] && kids[n..] == [kids[n]] + kids[n + 1..];
    DistinctIff(q);
    forall m | 0 <= m < |q| && q[m] in kids[..n + 1] ensures Reported(more, q[m..]) {
      if q[m] in kids[..n] {
        StillReported(cycles, more, q[m..]);
      }
    }
    forall p | SimplePath(t, p) && p[0] == s
      ensures ExploredPath(t, paths, more, p) || p == q || ExtendsBy(q, p, kids[n + 1..])
    {
      if ExploredPath(t, paths, cycles, p) {
        if Closed(t, cycles, p) {
          StillClosed(t, cycles, more, p);
        }
      } else if ExtendsBy(q, p, [kids[n]]) {
        DistinctIff(p);
      }
    }
  }

  /** The child is new: the extended path is pushed. */
  lemma {:induction false} ChildPushed(t: Table, s: Item, q: seq<Item>, n: nat, paths: seq<seq<Item>>, cycles: seq<seq<Item>>)
    requires q != [] && q[|q| - 1] in t && n < |t[q[|q| - 1]]|
    requires Extending(t, s, q, n, paths, cycles) && t[q[|q| - 1]][n] !in q
    ensures Extending(t, s, q, n + 1, paths + [q + [t[q[|q| - 1]][n]]], cycles)
  {
    var kids := t[q[|q| - 1]];
    var more := paths + [q + [kids[n]]];
    assert kids[..n + 1] == kids[..n] + [kids[n]] && kids[n..] == [kids[n]] + kids[n + 1..];
    forall p | SimplePath(t, p) && p[0] == s
      ensures ExploredPath(t, more, cycles, p) || p == q || ExtendsBy(q, p, kids[n + 1..])
    {
      if ExploredPath(t, paths, cycles, p) {
        if Covered(paths, p) {
          StillCovered(paths, more, p);
        }
      } else if ExtendsBy(q, p, [kids[n]]) {
        assert more[|paths|] <= p;
      }
    }
  }

  lemma {:induction false} AllChildrenDone(t: Table, s: Item, q: seq<Item>, paths: seq<seq<Item>>, cycles: seq<seq<Item>>)
    requires q != [] && q[|q| - 1] in t
    requires Extending(t, s, q, |t[q[|q| - 1]]|, paths, cycles)
    ensures Explored(t, s, paths, cycles)
  {
    var kids := t[q[|q| - 1]];
    assert kids[..|kids|] == kids;
    assert Closed(t, cycles, q);
    forall p | SimplePath(t, p) && p[0] == s ensures ExploredPath(t, paths, cycles, p) {
      assert !ExtendsBy(q, p, kids[|kids|..]);
    }
  }

  // ---------------------------------------------------------------- termination

  ghost function Nodes(t: Table): set<Item> {
    t.Keys + (set a, b | a in t && b in t[a] :: b)
  }

  ghost function Pow(b: nat, e: nat): nat {
    if e == 0 then 1 else b * Pow(b, e - 1)
  }

  /** The weight of a path: what a full tree of its extensions could cost. */
  ghost function PathWeight(b: nat, n: nat, p: seq<Item>): nat {
    if |p| <= n then Pow(b, n - |p|) else 0
  }

  ghost function Weight(b: nat, n: nat, paths: seq<seq<Item>>): nat {
    if paths == [] then 0 else Weight(b, n, paths[..|paths| - 1]) + PathWeight(b, n, paths[|paths| - 1])
  }

  ghost predicate DegreeBelow(t: Table, b: nat) {
    forall a :: a in t ==> |t[a]| < b
  }

  lemma {:induction false} DegreeBound(t: Table) returns (b: nat)
    ensures DegreeBelow(t, b)
    decreases t.Keys
  {
    if t == map[] {
      b := 0;
    } else {
      var a :| a in t;
      var c := DegreeBound(t - {a});
      b := if |t[a]| < c then c else |t[a]| + 1;
      forall x | x in t ensures |t[x]| < b {
        assert x != a ==> x in t - {a} && (t - {a})[x] == t[x];
      }
    }
  }

  lemma {:induction false} PowPositive(b: nat, e: nat)
    requires b > 0
    ensures Pow(b, e) > 0
  {
    if e > 0 {
      PowPositive(b, e - 1);
    }
  }

  lemma {:induction false} WeightPush(b: nat, n: nat, paths: seq<seq<Item>>, p: seq<Item>)
    ensures Weight(b, n, paths + [p]) == Weight(b, n, paths) + PathWeight(b, n, p)
  {
    assert (paths + [p])[..|paths|] == paths;
  }

  /** A simple path of known items is no longer than there are items, and shorter when it can grow. */
  lemma {:induction false} PathLength(t: Table, p: seq<Item>, s: Item)
    requires SimplePath(t, p) && p[0] == s && s in t
    ensures |p| <= |Nodes(t)|
  {
    forall i | 0 <= i < |p| ensures p[i] in Nodes(t) {
      if i > 0 {
        assert Hop(t, p, i - 1);
      }
    }
    DistinctBound(p, Nodes(t));
  }

  /** All the extensions of a path together weigh less than the path. */
  lemma {:induction false} ExtensionsWeighLess(b: nat, n: nat, len: nat, kids: nat)
    requires kids < b && len < n
    ensures kids * Pow(b, n - len - 1) < Pow(b, n - len)
  {
    PowPositive(b, n - len - 1);
    var x := Pow(b, n - len - 1);
    assert kids * x <= (b - 1) * x;
    assert (b - 1) * x == b * x - x;
  }

  // ---------------------------------------------------------------- the program

  method IndexOf(path: seq<Item>, child: Item) returns (k: nat)
    requires child in path
    ensures k < |path| && path[k] == child && child !in path[..k]
  {
    k := 0;
    while path[k] != child
      invariant k < |path| && child !in path[..k]
      decreases |path| - k
    {
      assert path[..k + 1] == path[..k] + [path[k]];
      assert child in path[k + 1..];
      k := k + 1;
    }
  }

  method IsDuplicate(cycles: seq<seq<Item>>, cycle: seq<Item>) returns (isDup: bool)
    requires cycle != []
    ensures isDup <==> Reported(cycles, cycle)
  {
    isDup := false;
    for i := 0 to |cycles|
      invariant !isDup && forall j :: 0 <= j < i ==> !Rotated(cycles[j], cycle)
    {
      var rotated := IsRotated(cycles[i], cycle);
      if rotated {
        isDup := true;
        return;
      }
    }
  }

  lemma {:induction false} NewCycle(t: Table, cycles: seq<seq<Item>>, c: seq<Item>)
    requires CyclesOnce(t, cycles) && IsCycle(t, c)
    ensures !Reported(cycles, c) ==> CyclesOnce(t, cycles + [c])
    ensures Reported(cycles + [c], c)
  {
    var more := cycles + [c];
    assert more[..|cycles|] == cycles;
    RotatedSame(c);
    assert Rotated(more[|cycles|], c);
  }

  /** Items marked as visited were reached from the start in hand, or had been before. */
  ghost predicate Reached(t: Table, s: Item, v: Item) {
    exists p :: ReachedBy(t, s, v, p)
  }

  ghost predicate ReachedBy(t: Table, s: Item, v: Item, p: seq<Item>) {
    SimplePath(t, p) && p[0] == s && p[|p| - 1] == v
  }

  ghost predicate Marked(t: Table, s: Item, before: set<Item>, visited: set<Item>) {
    before <= visited && forall v :: v in visited && v !in before ==> Reached(t, s, v)
  }

  /** What each pushed extension of q may weigh. */
  ghost function Unit(t: Table, b: nat, q: seq<Item>): nat {
    if |q| < |Nodes(t)| then Pow(b, |Nodes(t)| - |q| - 1) else 0
  }

  lemma {:induction false} OneMoreUnit(n: nat, unit: nat)
    ensures (n + 1) * unit == n * unit + unit
  {
  }

  /** The state of the loop over the children of the popped path q, n of them done. */
  ghost predicate AtChild(t: Table, s: Item, q: seq<Item>, n: nat, weight: nat, b: nat, before: set<Item>,
                          paths: seq<seq<Item>>, cycles: seq<seq<Item>>, visited: set<Item>)
    requires q != [] && q[|q| - 1] in t && n <= |t[q[|q| - 1]]|
  {
    && PathsFrom(t, s, paths) && CyclesOnce(t, cycles) && Marked(t, s, before, visited)
    && Extending(t, s, q, n, paths, cycles)
    && Weight(b, |Nodes(t)|, paths) <= weight + n * Unit(t, b, q)
  }

  lemma {:induction false} PushStep(t: Table, s: Item, q: seq<Item>, n: nat, weight: nat, b: nat, before: set<Item>,
                                    paths: seq<seq<Item>>, cycles: seq<seq<Item>>, visited: set<Item>)
    requires SimplePath(t, q) && q[0] == s && s in t && q[|q| - 1] in t && n < |t[q[|q| - 1]]|
    requires AtChild(t, s, q, n, weight, b, before, paths, cycles, visited)
    requires t[q[|q| - 1]][n] !in q
    ensures var child := t[q[|q| - 1]][n];
      AtChild(t, s, q, n + 1, weight, b, before, paths + [q + [child]], cycles, visited + {child})
  {
    var child := t[q[|q| - 1]][n];
    var p := q + [child];
    PushedPath(t, q, child);
    PathLength(t, p, s);
    assert (paths + [p])[..|paths|] == paths;
    ChildPushed(t, s, q, n, paths, cycles);
    WeightPush(b, |Nodes(t)|, paths, p);
    assert ReachedBy(t, s, child, p);
    OneMoreUnit(n, Unit(t, b, q));
  }

  lemma {:induction false} CloseStep(t: Table, s: Item, q: seq<Item>, n: nat, weight: nat, b: nat, before: set<Item>,
                                     paths: seq<seq<Item>>, cycles: seq<seq<Item>>, visited: set<Item>, k: nat, isDup: bool)
    requires SimplePath(t, q) && q[|q| - 1] in t && n < |t[q[|q| - 1]]|
    requires AtChild(t, s, q, n, weight, b, before, paths, cycles, visited)
    requires k < |q| && q[k] == t[q[|q| - 1]][n] && (isDup <==> Reported(cycles, q[k..]))
    ensures AtChild(t, s, q, n + 1, weight, b, before, paths, if isDup then cycles else cycles + [q[k..]], visited)
  {
    ClosedPath(t, q, k);
    NewCycle(t, cycles, q[k..]);
    ChildCloses(t, s, q, n, k, paths, cycles, if isDup then cycles else cycles + [q[k..]]);
    OneMoreUnit(n, Unit(t, b, q));
  }

  lemma {:induction false} LastChild(t: Table, s: Item, q: seq<Item>, b: nat, before: set<Item>, paths0: seq<seq<Item>>,
                                     paths: seq<seq<Item>>, cycles: seq<seq<Item>>, visited: set<Item>)
    requires SimplePath(t, q) && q[0] == s && s in t && q[|q| - 1] in t && DegreeBelow(t, b)
    requires AtChild(t, s, q, |t[q[|q| - 1]]|, Weight(b, |Nodes(t)|, paths0), b, before, paths, cycles, visited)
    ensures Explored(t, s, paths, cycles)
    ensures Weight(b, |Nodes(t)|, paths) < Weight(b, |Nodes(t)|, paths0 + [q])
  {
    var size := |Nodes(t)|;
    AllChildrenDone(t, s, q, paths, cycles);
    PathLength(t, q, s);
    WeightPush(b, size, paths0, q);
    PowPositive(b, size - |q|);
    if |q| < size {
      ExtensionsWeighLess(b, size, |q|, |t[q[|q| - 1]]|);
    }
  }

  /** The body of the while loop for a popped path whose last item has children. */
  method ExtendPath(t: Table, ghost s: Item, path: seq<Item>, paths0: seq<seq<Item>>, cycles0: seq<seq<Item>>,
                    visited0: set<Item>, ghost before: set<Item>, ghost b: nat)
    returns (paths: seq<seq<Item>>, cycles: seq<seq<Item>>, visited: set<Item>)
    requires SimplePath(t, path) && path[0] == s && s in t && path[|path| - 1] in t && DegreeBelow(t, b)
    requires PathsFrom(t, s, paths0) && CyclesOnce(t, cycles0) && Marked(t, s, before, visited0)
    requires Extending(t, s, path, 0, paths0, cycles0)
    ensures PathsFrom(t, s, paths) && CyclesOnce(t, cycles) && Marked(t, s, before, visited)
    ensures Explored(t, s, paths, cycles) && cycles0 <= cycles
    ensures Weight(b, |Nodes(t)|, paths) < Weight(b, |Nodes(t)|, paths0 + [path])
  {
    paths, cycles, visited := paths0, cycles0, visited0;
    var children := t[path[|path| - 1]];
    ghost var weight := Weight(b, |Nodes(t)|, paths0);
    for n := 0 to |children|
      invariant AtChild(t, s, path, n, weight, b, before, paths, cycles, visited) && cycles0 <= cycles
    {
      var child := children[n];
      if child in path {
        var k := IndexOf(path, child);
        var cycle := path[k..];
        var isDup := IsDuplicate(cycles, cycle);
        CloseStep(t, s, path, n, weight, b, before, paths, cycles, visited, k, isDup);
        if !isDup {
          cycles := cycles + [cycle];
        }
      } else {
        PushStep(t, s, path, n, weight, b, before, paths, cycles, visited);
        paths := paths + [path + [child]];
        visited := visited + {child};
      }
    }
    LastChild(t, s, path, b, before, paths0, paths, cycles, visited);
  }

  /** Everything reachable by simple paths from one start. */
  method Explore(t: Table, parent: Item, cycles0: seq<seq<Item>>, visited0: set<Item>)
    returns (cycles: seq<seq<Item>>, visited: set<Item>)
    requires parent in t && CyclesOnce(t, cycles0)
    ensures CyclesOnce(t, cycles) && cycles0 <= cycles
    ensures Explored(t, parent, [], cycles)
    ensures Marked(t, parent, visited0, visited)
  {
    cycles, visited := cycles0, visited0;
    var paths := [[parent]];
    ghost var b := DegreeBound(t);
    StartPath(t, parent, cycles);
    while paths != []
      invariant PathsFrom(t, parent, paths) && CyclesOnce(t, cycles) && Marked(t, parent, visited0, visited)
      invariant Explored(t, parent, paths, cycles) && cycles0 <= cycles
      decreases Weight(b, |Nodes(t)|, paths)
    {
      var path := paths[|paths| - 1];
      Popped(t, parent, paths, cycles);
      ghost var stack := paths;
      paths := paths[..|paths| - 1];
      assert stack == paths + [path];
      if path[|path| - 1] in t {
        paths, cycles, visited := ExtendPath(t, parent, path, paths, cycles, visited, visited0, b);
      } else {
        WeightPop(t, parent, b, paths, path);
      }
    }
  }

  lemma {:induction false} StartPath(t: Table, s: Item, cycles: seq<seq<Item>>)
    ensures PathsFrom(t, s, [[s]]) && Explored(t, s, [[s]], cycles)
  {
    var paths := [[s]];
    assert SimplePath(t, [s]);
    forall p | SimplePath(t, p) && p[0] == s ensures ExploredPath(t, paths, cycles, p) {
      assert paths[0] <= p;
    }
  }

  lemma {:induction false} WeightPop(t: Table, s: Item, b: nat, paths: seq<seq<Item>>, path: seq<Item>)
    requires SimplePath(t, path) && path[0] == s && s in t && DegreeBelow(t, b)
    ensures Weight(b, |Nodes(t)|, paths) < Weight(b, |Nodes(t)|, paths + [path])
  {
    WeightPush(b, |Nodes(t)|, paths, path);
    PathLength(t, path, s);
    assert |t[s]| < b;
    PowPositive(b, |Nodes(t)| - |path|);
  }

  // ---------------------------------------------------------------- completeness

  ghost predicate ReachedFrom(t: Table, starts: set<Item>, v: Item) {
    exists s :: s in starts && Reached(t, s, v)
  }

  /** From every start all is explored, and every item marked as visited is reached from a start. */
  ghost predicate Searched(t: Table, starts: set<Item>, visited: set<Item>, cycles: seq<seq<Item>>) {
    && (forall s :: s in starts ==> Explored(t, s, [], cycles))
    && (forall v :: v in visited ==> ReachedFrom(t, starts, v))
  }

  lemma {:induction false} SearchedMore(t: Table, starts: set<Item>, visited: set<Item>, cycles: seq<seq<Item>>,
                                        s: Item, visited': set<Item>, cycles': seq<seq<Item>>)
    requires Searched(t, starts, visited, cycles) && cycles <= cycles'
    requires Explored(t, s, [], cycles') && Marked(t, s, visited, visited')
    ensures Searched(t, starts + {s}, visited', cycles')
  {
    forall r | r in starts ensures Explored(t, r, [], cycles') {
      assert Explored(t, r, [], cycles);
      forall p | SimplePath(t, p) && p[0] == r ensures ExploredPath(t, [], cycles', p) {
        assert ExploredPath(t, [], cycles, p);
        StillClosed(t, cycles, cycles', p);
      }
    }
    forall v | v in visited' ensures ReachedFrom(t, starts + {s}, v) {
      if v in visited {
        var r :| r in starts && Reached(t, r, v);
      }
    }
  }

  /** The part of a path up to its first item on c. */
  lemma {:induction false} FirstMeeting(p: seq<Item>, c: seq<Item>) returns (m: nat)
    requires p != [] && p[|p| - 1] in c
    ensures m < |p| && p[m] in c && forall i :: 0 <= i < m ==> p[i] !in c
  {
    m := 0;
    while p[m] !in c
      invariant m < |p| && forall i :: 0 <= i < m ==> p[i] !in c
      decreases |p| - m
    {
      m := m + 1;
    }
  }

  /** A cycle may be entered at any of its items. */
  lemma {:induction false} RotateCycle(t: Table, c: seq<Item>, k: nat)
    requires IsCycle(t, c) && k < |c|
    ensures IsCycle(t, c[k..] + c[..k]) && Rotated(c, c[k..] + c[..k])
  {
    var d := c[k..] + c[..k];
    assert RotatedBy(c, d, k);
    SubPath(t, c, k, |c|);
    assert c[k..|c|] == c[k..];
    if k > 0 {
      SubPath(t, c, 0, k);
      assert c[0..k] == c[..k];
      DistinctIff(c);
      JoinPaths(t, c[k..], c[..k]);
      assert Hop(t, c, k - 1);
    } else {
      assert d == c;
    }
  }

  /** The first meeting with a cycle extends to a simple path that runs once around it. */
  lemma {:induction false} AroundCycle(t: Table, p: seq<Item>, d: seq<Item>, m: nat) returns (w: seq<Item>)
    requires SimplePath(t, p) && m < |p| && IsCycle(t, d) && d[0] == p[m]
    requires forall i :: 0 <= i < m ==> p[i] !in d
    ensures SimplePath(t, w) && w[0] == p[0] && m < |w| && w[m..] == d && w[|w| - 1] == d[|d| - 1]
  {
    w := p[..m] + d;
    if m > 0 {
      SubPath(t, p, 0, m);
      assert p[0..m] == p[..m];
      assert Hop(t, p, m - 1);
    }
    JoinPaths(t, p[..m], d);
  }

  /** A cycle that a start reaches is reported once everything from that start is explored. */
  lemma {:induction false} ReachedCycleReported(t: Table, s: Item, cycles: seq<seq<Item>>, c: seq<Item>, v: Item)
    requires IsCycle(t, c) && v in c && Reached(t, s, v) && Explored(t, s, [], cycles)
    ensures Reported(cycles, c)
  {
    var p :| ReachedBy(t, s, v, p);
    var m := FirstMeeting(p, c);
    var k :| 0 <= k < |c| && c[k] == p[m];
    RotateCycle(t, c, k);
    var d := c[k..] + c[..k];
    forall x | x in d ensures x in c {}
    var w := AroundCycle(t, p, d, m);
    assert ExploredPath(t, [], cycles, w);
    assert w[m] == w[m..][0];
    var i :| 0 <= i < |cycles| && Rotated(cycles[i], d);
    RotatedBack(c, d);
    RotatedTwice(cycles[i], d, c);
  }

  lemma {:induction false} AllCyclesReported(t: Table, starts: set<Item>, visited: set<Item>, cycles: seq<seq<Item>>, c: seq<Item>)
    requires Searched(t, starts, visited, cycles) && IsCycle(t, c)
    requires forall a :: a in t ==> a in starts || a in visited
    ensures Reported(cycles, c)
  {
    var v := c[|c| - 1];
    assert Edge(t, v, c[0]);
    if v in starts {
      assert SimplePath(t, [v]);
      assert ReachedBy(t, v, v, [v]);
      ReachedCycleReported(t, v, cycles, c, v);
    } else {
      var s :| s in starts && Reached(t, s, v);
      ReachedCycleReported(t, s, cycles, c, v);
    }
  }

  /**
    Sound, free of duplicates and complete: what is yielded are cycles, no two of them rotations
    of each other, and every cycle of the table is a rotation of one of them.
   */
  method FindCycles(t: Table, keys: seq<Item>) returns (cycles: seq<seq<Item>>)
    requires forall a :: a in t <==> a in keys
    ensures forall i :: 0 <= i < |cycles| ==> IsCycle(t, cycles[i])
    ensures forall i, j :: 0 <= i < |cycles| && 0 <= j < |cycles| && Rotated(cycles[i], cycles[j]) ==> i == j
    ensures forall c {:trigger IsCycle(t, c)} :: IsCycle(t, c) ==> Reported(cycles, c)
  {
    cycles := [];
    var visited: set<Item> := {};
    ghost var starts: set<Item> := {};
    for n := 0 to |keys|
      invariant CyclesOnce(t, cycles) && Searched(t, starts, visited, cycles)
      invariant forall i :: 0 <= i < n ==> keys[i] in starts || keys[i] in visited
    {
      var parent := keys[n];
      if parent in visited {
        continue;
      }
      ghost var cycles0, visited0 := cycles, visited;
      cycles, visited := Explore(t, parent, cycles, visited);
      SearchedMore(t, starts, visited0, cycles0, parent, visited, cycles);
      starts := starts + {parent};
    }
    forall c {:trigger IsCycle(t, c)} | IsCycle(t, c) ensures Reported(cycles, c) {
      AllCyclesReported(t, starts, visited, cycles, c);
    }
    forall i, j | 0 <= i < |cycles| && 0 <= j < |cycles|
      ensures IsCycle(t, cycles[i]) && (Rotated(cycles[i], cycles[j]) ==> i == j)
    {
      CyclesOnceAt(t, cycles, i, j);
    }
  }
}
