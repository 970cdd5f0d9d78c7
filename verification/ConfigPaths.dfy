/**
  What the gathered configuration paths are: one for every simple edge-labelled path of the
  type graph that starts at the root.
 */
module ConfigPaths {
  import opened Sequences
  import opened StaticInformation

  /** A path is given by its root and, step by step, the number of the edge taken. */
  type Steps = seq<nat>

  ghost predicate Follows(g: TypeGraph, t: TypeId, es: Steps)
    decreases es
  {
    es != [] ==> es[0] < |g(t)| && Follows(g, g(t)[es[0]].1, es[1..])
  }

  ghost function Visited(g: TypeGraph, t: TypeId, es: Steps): seq<TypeId>
    requires Follows(g, t, es)
    decreases es
  {
    if es == [] then [t] else [t] + Visited(g, g(t)[es[0]].1, es[1..])
  }

  ghost function End(g: TypeGraph, t: TypeId, es: Steps): TypeId
    requires Follows(g, t, es)
  {
    var v := Visited(g, t, es);
    if v == [] then t else v[|v| - 1]
  }

  ghost function Labels(g: TypeGraph, t: TypeId, es: Steps): seq<string>
    requires Follows(g, t, es)
    decreases es
  {
    if es == [] then [] else [g(t)[es[0]].0] + Labels(g, g(t)[es[0]].1, es[1..])
  }

  /** A path along edges that visits no type twice. */
  ghost predicate SimplePath(g: TypeGraph, t: TypeId, es: Steps) {
    && Follows(g, t, es)
    && var v := Visited(g, t, es);
       forall i, j :: 0 <= i < j < |v| ==> v[i] != v[j]
  }

  /** A simple path that stays off the given types. */
  ghost predicate FreePath(g: TypeGraph, t: TypeId, es: Steps, processed: seq<TypeId>) {
    && SimplePath(g, t, es)
    && var v := Visited(g, t, es);
       forall i :: 0 <= i < |v| ==> v[i] !in Items(processed)
  }

  // ---------------------------------------------------------------- the paths in the order of the search

  ghost function Prefixed(i: nat, ls: seq<Steps>): seq<Steps> {
    if ls == [] then [] else Prefixed(i, ls[..|ls| - 1]) + [[i] + ls[|ls| - 1]]
  }

  ghost function Listing(g: TypeGraph, types: set<TypeId>, t: TypeId, processed: seq<TypeId>): seq<Steps>
    requires ClosedGraph(g, types) && t in types
    decreases Fresh(types, processed), 1, 0
  {
    if t in Items(processed) then [] else [[]] + ListingAlong(g, types, t, processed, |g(t)|)
  }

  ghost function ListingAlong(g: TypeGraph, types: set<TypeId>, t: TypeId, processed: seq<TypeId>, n: nat): seq<Steps>
    requires ClosedGraph(g, types) && t in types && t !in Items(processed) && n <= |g(t)|
    decreases Fresh(types, processed), 0, n
  {
    if n == 0 then [] else
    FreshDrops(types, processed, t);
    ListingAlong(g, types, t, processed, n - 1)
    + Prefixed(n - 1, Listing(g, types, g(t)[n - 1].1, processed + [t]))
  }

  lemma {:induction false} PrefixedAt(i: nat, ls: seq<Steps>)
    ensures |Prefixed(i, ls)| == |ls|
    ensures forall k :: 0 <= k < |ls| ==> Prefixed(i, ls)[k] == [i] + ls[k]
  {
    if ls != [] { PrefixedAt(i, ls[..|ls| - 1]); }
  }

  // ---------------------------------------------------------------- every free path is listed, once

  /** One step down: the rest of a free path is a free path off the type just left. */
  lemma {:induction false} FreeStep(g: TypeGraph, t: TypeId, es: Steps, processed: seq<TypeId>)
    requires es != [] && es[0] < |g(t)| && t !in Items(processed)
    ensures FreePath(g, t, es, processed)
        <==> FreePath(g, g(t)[es[0]].1, es[1..], processed + [t])
  {
    var u := g(t)[es[0]].1;
    assert (processed + [t])[..|processed|] == processed;
    if Follows(g, u, es[1..]) {
      var v, w := Visited(g, t, es), Visited(g, u, es[1..]);
      assert v == [t] + w;
      assert Items(processed + [t]) == Items(processed) + {t};
      if FreePath(g, t, es, processed) {
        forall i | 0 <= i < |w| ensures w[i] !in Items(processed + [t]) && forall j :: i < j < |w| ==> w[i] != w[j] {
          assert w[i] == v[i + 1] && v[0] != v[i + 1];
          assert forall j :: i < j < |w| ==> w[j] == v[j + 1];
        }
      }
      if FreePath(g, u, es[1..], processed + [t]) {
        forall i | 0 <= i < |v| ensures v[i] !in Items(processed) && forall j :: i < j < |v| ==> v[i] != v[j] {
          assert i > 0 ==> v[i] == w[i - 1];
          assert forall j :: i < j < |v| ==> v[j] == w[j - 1];
        }
      }
    }
  }

  lemma {:induction false} ListedIffFree(g: TypeGraph, types: set<TypeId>, t: TypeId, processed: seq<TypeId>, es: Steps)
    requires ClosedGraph(g, types) && t in types
    ensures es in Listing(g, types, t, processed) <==> FreePath(g, t, es, processed)
    decreases Fresh(types, processed), 1, 0
  {
    if t in Items(processed) {
      if Follows(g, t, es) { assert Visited(g, t, es)[0] == t; }
    } else {
      var n := |g(t)|;
      ListedAlongIffFree(g, types, t, processed, n, es);
      if es == [] {
        assert Visited(g, t, []) == [t];
      }
    }
  }

  lemma {:induction false} ListedAlongIffFree(g: TypeGraph, types: set<TypeId>, t: TypeId, processed: seq<TypeId>, n: nat, es: Steps)
    requires ClosedGraph(g, types) && t in types && t !in Items(processed) && n <= |g(t)|
    ensures es in ListingAlong(g, types, t, processed, n) <==> es != [] && es[0] < n && FreePath(g, t, es, processed)
    decreases Fresh(types, processed), 0, n
  {
    if n > 0 {
      FreshDrops(types, processed, t);
      ListedAlongIffFree(g, types, t, processed, n - 1, es);
      var u := g(t)[n - 1].1;
      var below := Listing(g, types, u, processed + [t]);
      PrefixedIn(n - 1, below, es);
      if es != [] && es[0] == n - 1 {
        ListedIffFree(g, types, u, processed + [t], es[1..]);
        FreeStep(g, t, es, processed);
      }
    }
  }

  lemma {:induction false} PrefixedIn(i: nat, ls: seq<Steps>, es: Steps)
    ensures es in Prefixed(i, ls) <==> es != [] && es[0] == i && es[1..] in ls
  {
    PrefixedAt(i, ls);
    if es in Prefixed(i, ls) {
      var k :| 0 <= k < |ls| && Prefixed(i, ls)[k] == es;
      assert ([i] + ls[k])[1..] == ls[k];
    }
    if es != [] && es[0] == i && es[1..] in ls {
      var k :| 0 <= k < |ls| && ls[k] == es[1..];
      assert Prefixed(i, ls)[k] == es;
    }
  }

  lemma {:induction false} PrefixedOnce(i: nat, ls: seq<Steps>)
    requires NoRepeats(ls)
    ensures NoRepeats(Prefixed(i, ls))
  {
    PrefixedAt(i, ls);
    var b := Prefixed(i, ls);
    forall j, k | 0 <= j < k < |b| ensures b[j] != b[k] {
      assert b[j][1..] == ls[j] && b[k][1..] == ls[k];
    }
  }

  lemma {:induction false} ListedOnce(g: TypeGraph, types: set<TypeId>, t: TypeId, processed: seq<TypeId>)
    requires ClosedGraph(g, types) && t in types
    ensures NoRepeats(Listing(g, types, t, processed))
    decreases Fresh(types, processed), 1, 0
  {
    if t !in Items(processed) {
      var n := |g(t)|;
      ListedAlongOnce(g, types, t, processed, n);
      ListedAlongIffFree(g, types, t, processed, n, []);
      JoinNoRepeats([[]], ListingAlong(g, types, t, processed, n));
    }
  }

  lemma {:induction false} ListedAlongOnce(g: TypeGraph, types: set<TypeId>, t: TypeId, processed: seq<TypeId>, n: nat)
    requires ClosedGraph(g, types) && t in types && t !in Items(processed) && n <= |g(t)|
    ensures NoRepeats(ListingAlong(g, types, t, processed, n))
    decreases Fresh(types, processed), 0, n
  {
    if n > 0 {
      FreshDrops(types, processed, t);
      ListedAlongOnce(g, types, t, processed, n - 1);
      var below := Listing(g, types, g(t)[n - 1].1, processed + [t]);
      ListedOnce(g, types, g(t)[n - 1].1, processed + [t]);
      var a, b := ListingAlong(g, types, t, processed, n - 1), Prefixed(n - 1, below);
      PrefixedOnce(n - 1, below);
      forall x | x in a ensures x !in b {
        ListedAlongIffFree(g, types, t, processed, n - 1, x);
        PrefixedIn(n - 1, below, x);
      }
      JoinNoRepeats(a, b);
    }
  }

  /** Labels are joined one after the other. */
  lemma {:induction false} JoinPathAppend(a: seq<string>, b: seq<string>)
    ensures JoinPath(a + b) == JoinPath(a) + JoinPath(b)
  {
    if b == [] {
      assert a + b == a;
    } else {
      var init, x := b[..|b| - 1], b[|b| - 1];
      JoinPathAppend(a, init);
      assert (a + b)[..|a + b| - 1] == a + init;
      assert JoinPath(a) + JoinPath(init) + "/" + x == JoinPath(a) + (JoinPath(init) + "/" + x);
    }
  }

  /** And each stands behind a slash of its own. */
  lemma {:induction false} JoinPathOne(x: string)
    ensures JoinPath([]) == "" && JoinPath([x]) == "/" + x
  {
    assert [x][..0] == [];
    assert "" + "/" + x == "/" + x;
  }

  // ---------------------------------------------------------------- what is recorded for each path

  ghost function Entry(g: TypeGraph, t: TypeId, path: seq<string>, es: Steps): (TypeId, string)
    requires Follows(g, t, es)
  {
    (End(g, t, es), JoinPath(path + Labels(g, t, es)))
  }

  /** Entry by entry, the output out belongs to the paths ls from t. */
  ghost predicate Matches(g: TypeGraph, t: TypeId, path: seq<string>, ls: seq<Steps>, out: seq<(TypeId, string)>) {
    && |ls| == |out|
    && forall k :: 0 <= k < |ls| ==> Follows(g, t, ls[k]) && out[k] == Entry(g, t, path, ls[k])
  }

  lemma {:induction false} MatchesStep(g: TypeGraph, t: TypeId, path: seq<string>, i: nat,
                                       ls: seq<Steps>, out: seq<(TypeId, string)>)
    requires i < |g(t)|
    requires var (edge, u) := g(t)[i]; Matches(g, u, path + [edge], ls, out)
    ensures Matches(g, t, path, Prefixed(i, ls), out)
  {
    var (edge, u) := g(t)[i];
    PrefixedAt(i, ls);
    forall k | 0 <= k < |ls|
      ensures Follows(g, t, [i] + ls[k]) && out[k] == Entry(g, t, path, [i] + ls[k])
    {
      var es := [i] + ls[k];
      assert es[1..] == ls[k];
      assert Labels(g, t, es) == [edge] + Labels(g, u, ls[k]);
      assert path + ([edge] + Labels(g, u, ls[k])) == path + [edge] + Labels(g, u, ls[k]);
      VisitedNonEmpty(g, u, ls[k]);
    }
  }

  lemma {:induction false} MatchesAppend(g: TypeGraph, t: TypeId, path: seq<string>,
                                         ls: seq<Steps>, out: seq<(TypeId, string)>, ls': seq<Steps>, out': seq<(TypeId, string)>)
    requires Matches(g, t, path, ls, out) && Matches(g, t, path, ls', out')
    ensures Matches(g, t, path, ls + ls', out + out')
  {
  }

  lemma {:induction false} VisitedNonEmpty(g: TypeGraph, t: TypeId, es: Steps)
    requires Follows(g, t, es)
    ensures Visited(g, t, es) != [] && Visited(g, t, es)[0] == t
  {
  }

  lemma {:induction false} GatheredMatches(g: TypeGraph, types: set<TypeId>, t: TypeId, processed: seq<TypeId>, path: seq<string>)
    requires ClosedGraph(g, types) && t in types
    ensures Matches(g, t, path, Listing(g, types, t, processed), Gathered(g, types, t, processed, path))
    decreases Fresh(types, processed), 1, 0
  {
    if t !in Items(processed) {
      var n := |g(t)|;
      AlongMatches(g, types, t, processed, path, n);
      assert path + [] == path;
      assert Entry(g, t, path, []) == (t, JoinPath(path));
    }
  }

  lemma {:induction false} AlongMatches(g: TypeGraph, types: set<TypeId>, t: TypeId, processed: seq<TypeId>, path: seq<string>, n: nat)
    requires ClosedGraph(g, types) && t in types && t !in Items(processed) && n <= |g(t)|
    ensures Matches(g, t, path, ListingAlong(g, types, t, processed, n), GatheredAlong(g, types, t, processed, path, n))
    decreases Fresh(types, processed), 0, n
  {
    if n > 0 {
      FreshDrops(types, processed, t);
      var (edge, u) := g(t)[n - 1];
      AlongMatches(g, types, t, processed, path, n - 1);
      GatheredMatches(g, types, u, processed + [t], path + [edge]);
      LastEdgeMatches(g, types, t, processed, path, n);
    }
  }

  lemma {:induction false} LastEdgeMatches(g: TypeGraph, types: set<TypeId>, t: TypeId, processed: seq<TypeId>, path: seq<string>, n: nat)
    requires ClosedGraph(g, types) && t in types && t !in Items(processed) && 0 < n <= |g(t)|
    requires Matches(g, t, path, ListingAlong(g, types, t, processed, n - 1), GatheredAlong(g, types, t, processed, path, n - 1))
    requires Matches(g, g(t)[n - 1].1, path + [g(t)[n - 1].0], Listing(g, types, g(t)[n - 1].1, processed + [t]),
                     Gathered(g, types, g(t)[n - 1].1, processed + [t], path + [g(t)[n - 1].0]))
    ensures Matches(g, t, path, ListingAlong(g, types, t, processed, n), GatheredAlong(g, types, t, processed, path, n))
  {
    var (edge, u) := g(t)[n - 1];
    var ls, out := Listing(g, types, u, processed + [t]), Gathered(g, types, u, processed + [t], path + [edge]);
    MatchesStep(g, t, path, n - 1, ls, out);
    MatchesAppend(g, t, path, ListingAlong(g, types, t, processed, n - 1),
                  GatheredAlong(g, types, t, processed, path, n - 1), Prefixed(n - 1, ls), out);
  }

  /**
    Gathering from empty stacks appends exactly one entry for each simple edge-labelled path
    from the root: the type the path ends in, with the labels along it, depth first.
   */
  lemma {:induction false} OneEntryPerSimplePath(g: TypeGraph, types: set<TypeId>, root: TypeId) returns (paths: seq<Steps>)
    requires ClosedGraph(g, types) && root in types
    ensures NoRepeats(paths) && InOrder(paths)
    ensures forall es :: es in paths <==> SimplePath(g, root, es)
    ensures Matches(g, root, [], paths, Gathered(g, types, root, [], []))
  {
    paths := Listing(g, types, root, []);
    ListedOnce(g, types, root, []);
    ListedInOrder(g, types, root, []);
    forall es ensures es in paths <==> SimplePath(g, root, es) {
      ListedIffFree(g, types, root, [], es);
    }
    GatheredMatches(g, types, root, [], []);
  }

  /** Two simple paths from the root that end in the same type with the same joined labels. */
  ghost predicate SameEntry(g: TypeGraph, root: TypeId, es: Steps, fs: Steps) {
    && SimplePath(g, root, es) && SimplePath(g, root, fs) && es != fs
    && End(g, root, es) == End(g, root, fs)
    && JoinPath(Labels(g, root, es)) == JoinPath(Labels(g, root, fs))
  }

  /** As nothing prunes the output, it repeats an entry exactly when two different simple paths give the same one. */
  lemma {:induction false} RepeatsIff(g: TypeGraph, types: set<TypeId>, root: TypeId)
    requires ClosedGraph(g, types) && root in types
    ensures !NoRepeats(Gathered(g, types, root, [], [])) <==> exists es, fs :: SameEntry(g, root, es, fs)
  {
    var out := Gathered(g, types, root, [], []);
    var paths := OneEntryPerSimplePath(g, types, root);
    forall i | 0 <= i < |paths|
      ensures SimplePath(g, root, paths[i])
      ensures out[i] == (End(g, root, paths[i]), JoinPath(Labels(g, root, paths[i])))
    {
      assert paths[i] in paths;
      assert [] + Labels(g, root, paths[i]) == Labels(g, root, paths[i]);
    }
    if i, j :| 0 <= i < j < |out| && out[i] == out[j] {
      assert SameEntry(g, root, paths[i], paths[j]);
    }
    if es, fs :| SameEntry(g, root, es, fs) {
      assert es in paths && fs in paths;
      var i :| 0 <= i < |paths| && paths[i] == es;
      var j :| 0 <= j < |paths| && paths[j] == fs;
      assert out[i] == out[j];
    }
  }

  /** As for an aggregation that was recorded twice. */
  lemma {:induction false} ParallelEdgesRepeat(g: TypeGraph, types: set<TypeId>, root: TypeId, i: nat, j: nat)
    requires ClosedGraph(g, types) && root in types
    requires i < j < |g(root)| && g(root)[i] == g(root)[j] && g(root)[i].1 != root
    ensures !NoRepeats(Gathered(g, types, root, [], []))
  {
    OneStep(g, root, i);
    OneStep(g, root, j);
    assert [i][0] != [j][0];
    assert SameEntry(g, root, [i], [j]);
    RepeatsIff(g, types, root);
  }

  lemma {:induction false} OneStep(g: TypeGraph, t: TypeId, i: nat)
    requires i < |g(t)|
    ensures Follows(g, t, [i])
    ensures Visited(g, t, [i]) == [t, g(t)[i].1] && Labels(g, t, [i]) == [g(t)[i].0]
  {
    assert [i][1..] == [];
    assert Visited(g, g(t)[i].1, []) == [g(t)[i].1];
  }

  // ---------------------------------------------------------------- the edges and their order

  /** An attribute that points to something else than a plain Object, or that holds a container of something. */
  ghost predicate AttributeEdge(r: Registry, tid: TypeId, edge: string, target: TypeId) {
    || (Pointer(edge, target) in r.attributes(tid) && target != r.objectType)
    || (exists name :: Container(name, target) in r.attributes(tid) && edge == name + "/[i]")
  }

  ghost predicate ChildEdge(r: Registry, tid: TypeId, edge: string, target: TypeId) {
    target in r.registered && r.isChildOf(target, tid) && edge == "$" + r.name(target)
  }

  ghost predicate AggregateEdge(r: Registry, aggregates: Aggregates, tid: TypeId, edge: string, target: TypeId) {
    ((tid, target) in aggregates || (target, tid) in aggregates) && edge == "$" + r.name(target)
  }

  lemma {:induction false} AttributeEdgesIff(r: Registry, attributes: seq<Attribute>, edge: string, target: TypeId)
    ensures (edge, target) in AttributeEdges(r, attributes) <==>
      || (Pointer(edge, target) in attributes && target != r.objectType)
      || (exists name :: Container(name, target) in attributes && edge == name + "/[i]")
  {
    if attributes != [] {
      var n := |attributes| - 1;
      AttributeEdgesIff(r, attributes[..n], edge, target);
      assert attributes == attributes[..n] + [attributes[n]];
    }
  }

  lemma {:induction false} ChildEdgesIff(r: Registry, registered: seq<TypeId>, tid: TypeId, edge: string, target: TypeId)
    ensures (edge, target) in ChildEdges(r, registered, tid) <==>
      target in registered && r.isChildOf(target, tid) && edge == "$" + r.name(target)
  {
    if registered != [] {
      var n := |registered| - 1;
      ChildEdgesIff(r, registered[..n], tid, edge, target);
      assert registered == registered[..n] + [registered[n]];
    }
  }

  lemma {:induction false} AggregateEdgesIff(r: Registry, aggregates: Aggregates, tid: TypeId, edge: string, target: TypeId)
    ensures (edge, target) in AggregateEdges(r, aggregates, tid) <==>
      ((tid, target) in aggregates || (target, tid) in aggregates) && edge == "$" + r.name(target)
  {
    if aggregates != [] {
      var n := |aggregates| - 1;
      AggregateEdgesIff(r, aggregates[..n], tid, edge, target);
      assert aggregates == aggregates[..n] + [aggregates[n]];
      var (a, b) := aggregates[n];
      assert aggregates[n] == (tid, target) <==> a == tid && b == target;
      assert aggregates[n] == (target, tid) <==> a == target && b == tid;
    }
  }

  /** An attribute gives one edge or none, in the order of the attributes. */
  lemma {:induction false} AttributeEdgesAppend(r: Registry, a: seq<Attribute>, b: seq<Attribute>, x: Attribute)
    ensures AttributeEdges(r, a + b) == AttributeEdges(r, a) + AttributeEdges(r, b)
    ensures |AttributeEdges(r, [x])| == if x.Plain? || (x.Pointer? && x.pointee == r.objectType) then 0 else 1
  {
    if b == [] {
      assert a + b == a;
    } else {
      var n := |b| - 1;
      assert (a + b)[..|a| + n] == a + b[..n];
      AttributeEdgesAppend(r, a, b[..n], x);
    }
    assert [x][..0] == [];
  }

  /** So does a registered type, and so does a recorded aggregation. */
  lemma {:induction false} ChildEdgesAppend(r: Registry, a: seq<TypeId>, b: seq<TypeId>, x: TypeId, tid: TypeId)
    ensures ChildEdges(r, a + b, tid) == ChildEdges(r, a, tid) + ChildEdges(r, b, tid)
    ensures |ChildEdges(r, [x], tid)| == if r.isChildOf(x, tid) then 1 else 0
  {
    if b == [] {
      assert a + b == a;
    } else {
      var n := |b| - 1;
      assert (a + b)[..|a| + n] == a + b[..n];
      ChildEdgesAppend(r, a, b[..n], x, tid);
    }
    assert [x][..0] == [];
  }

  lemma {:induction false} AggregateEdgesAppend(r: Registry, a: Aggregates, b: Aggregates, x: (TypeId, TypeId), tid: TypeId)
    ensures AggregateEdges(r, a + b, tid) == AggregateEdges(r, a, tid) + AggregateEdges(r, b, tid)
    ensures |AggregateEdges(r, [x], tid)| == if x.0 == tid || x.1 == tid then 1 else 0
  {
    if b == [] {
      assert a + b == a;
    } else {
      var n := |b| - 1;
      assert (a + b)[..|a| + n] == a + b[..n];
      AggregateEdgesAppend(r, a, b[..n], x, tid);
    }
    assert [x][..0] == [];
  }

  /** What is followed from a type, in terms of what is registered. */
  lemma {:induction false} EdgesIff(r: Registry, aggregates: Aggregates, tid: TypeId, edge: string, target: TypeId)
    ensures (edge, target) in EdgesOf(r, aggregates, tid) <==>
      || AttributeEdge(r, tid, edge, target)
      || ChildEdge(r, tid, edge, target)
      || AggregateEdge(r, aggregates, tid, edge, target)
  {
    AttributeEdgesIff(r, r.attributes(tid), edge, target);
    ChildEdgesIff(r, r.registered, tid, edge, target);
    AggregateEdgesIff(r, aggregates, tid, edge, target);
  }

  /** es comes before fs: it is where fs starts out, or takes an earlier edge where the two part. */
  ghost predicate Earlier(es: Steps, fs: Steps) {
    || es < fs
    || exists k {:trigger es[k], fs[k]} :: 0 <= k < |es| && k < |fs| && es[..k] == fs[..k] && es[k] < fs[k]
  }

  ghost predicate InOrder(ls: seq<Steps>) {
    forall i, j :: 0 <= i < j < |ls| ==> Earlier(ls[i], ls[j])
  }

  lemma {:induction false} PrefixedInOrder(i: nat, ls: seq<Steps>)
    requires InOrder(ls)
    ensures InOrder(Prefixed(i, ls))
  {
    PrefixedAt(i, ls);
    var out := Prefixed(i, ls);
    forall a, b | 0 <= a < b < |out| ensures Earlier(out[a], out[b]) {
      EarlierBehind(i, ls[a], ls[b]);
    }
  }

  lemma {:induction false} EarlierBehind(i: nat, es: Steps, fs: Steps)
    requires Earlier(es, fs)
    ensures Earlier([i] + es, [i] + fs)
  {
    if !(es < fs) {
      var k :| 0 <= k < |es| && k < |fs| && es[..k] == fs[..k] && es[k] < fs[k];
      var a, b := [i] + es, [i] + fs;
      assert a[..k + 1] == [i] + es[..k] && b[..k + 1] == [i] + fs[..k];
      assert a[k + 1] < b[k + 1];
    }
  }

  lemma {:induction false} JoinInOrder(a: seq<Steps>, b: seq<Steps>)
    requires InOrder(a) && InOrder(b)
    requires forall x, y :: x in a && y in b ==> Earlier(x, y)
    ensures InOrder(a + b)
  {
    var c := a + b;
    forall i, j | 0 <= i < j < |c| ensures Earlier(c[i], c[j]) {
      if i < |a| <= j {
        assert c[i] in a && c[j] in b;
      }
    }
  }

  /** The paths are listed depth first: a path before those that go on from it, and earlier edges before later ones. */
  lemma {:induction false} ListedInOrder(g: TypeGraph, types: set<TypeId>, t: TypeId, processed: seq<TypeId>)
    requires ClosedGraph(g, types) && t in types
    ensures InOrder(Listing(g, types, t, processed))
    decreases Fresh(types, processed), 1, 0
  {
    if t !in Items(processed) {
      var n := |g(t)|;
      ListedAlongInOrder(g, types, t, processed, n);
      var along := ListingAlong(g, types, t, processed, n);
      forall x, y | x in [[]] && y in along ensures Earlier(x, y) {
        ListedAlongIffFree(g, types, t, processed, n, y);
      }
      JoinInOrder([[]], along);
    }
  }

  lemma {:induction false} ListedAlongInOrder(g: TypeGraph, types: set<TypeId>, t: TypeId, processed: seq<TypeId>, n: nat)
    requires ClosedGraph(g, types) && t in types && t !in Items(processed) && n <= |g(t)|
    ensures InOrder(ListingAlong(g, types, t, processed, n))
    decreases Fresh(types, processed), 0, n
  {
    if n > 0 {
      FreshDrops(types, processed, t);
      var below := Listing(g, types, g(t)[n - 1].1, processed + [t]);
      ListedAlongInOrder(g, types, t, processed, n - 1);
      ListedInOrder(g, types, g(t)[n - 1].1, processed + [t]);
      PrefixedInOrder(n - 1, below);
      var a, b := ListingAlong(g, types, t, processed, n - 1), Prefixed(n - 1, below);
      forall x, y | x in a && y in b ensures Earlier(x, y) {
        ListedAlongIffFree(g, types, t, processed, n - 1, x);
        PrefixedIn(n - 1, below, y);
        assert x[..0] == y[..0] && x[0] < y[0];
      }
      JoinInOrder(a, b);
    }
  }

  // ---------------------------------------------------------------- what is read back

  /** The paths recorded for a type, whenever they were recorded, in order. */
  lemma {:induction false} PathsOfAppend(a: seq<(TypeId, string)>, b: seq<(TypeId, string)>, tid: TypeId)
    ensures PathsOf(a + b, tid) == PathsOf(a, tid) + PathsOf(b, tid)
  {
    if b == [] {
      assert a + b == a;
    } else {
      var n := |b| - 1;
      assert (a + b)[..|a| + n] == a + b[..n];
      PathsOfAppend(a, b[..n], tid);
    }
  }

  lemma {:induction false} PathsOfOne(t: TypeId, path: string, tid: TypeId)
    ensures PathsOf([(t, path)], tid) == if t == tid then [path] else []
  {
    assert [(t, path)][..0] == [];
  }
}
