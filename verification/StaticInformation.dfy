/**
  Gathering the configuration paths of every type reachable from a root: a depth-first search
  over a labelled type graph that may be cyclic, with two stacks kept in member fields.
 */
module StaticInformation {
  import opened Sequences
  import opened Containers

  type TypeId(==, !new)

  datatype Attribute = Pointer(name: string, pointee: TypeId) | Container(name: string, item: TypeId) | Plain(name: string)

  datatype Lookup = NotFound | Found(tid: TypeId)

  /** The registered types: their attributes, names and inheritance, the type Object, and how entries compare. */
  datatype Registry = Registry(types: set<TypeId>, registered: seq<TypeId>, objectType: TypeId,
                               attributes: TypeId -> seq<Attribute>, name: TypeId -> string,
                               isChildOf: (TypeId, TypeId) -> bool, lookup: string -> Lookup,
                               entryLess: ((TypeId, string), (TypeId, string)) -> bool)

  type Aggregates = seq<(TypeId, TypeId)>

  type Edges = seq<(string, TypeId)>

  // ---------------------------------------------------------------- the type graph

  /** Pointers to a plain Object are not followed. */
  function AttributeEdges(r: Registry, attributes: seq<Attribute>): Edges {
    if attributes == [] then [] else
    AttributeEdges(r, attributes[..|attributes| - 1]) +
    match attributes[|attributes| - 1]
    case Pointer(name, pointee) => if pointee == r.objectType then [] else [(name, pointee)]
    case Container(name, item) => [(name + "/[i]", item)]
    case Plain(_) => []
  }

  function ChildEdges(r: Registry, registered: seq<TypeId>, tid: TypeId): Edges {
    if registered == [] then [] else
    var child := registered[|registered| - 1];
    ChildEdges(r, registered[..|registered| - 1], tid)
    + (if r.isChildOf(child, tid) then [("$" + r.name(child), child)] else [])
  }

  function AggregateEdges(r: Registry, aggregates: Aggregates, tid: TypeId): Edges {
    if aggregates == [] then [] else
    var (a, b) := aggregates[|aggregates| - 1];
    AggregateEdges(r, aggregates[..|aggregates| - 1], tid)
    + (if a == tid || b == tid then var other := if b == tid then a else b; [("$" + r.name(other), other)] else [])
  }

  /** The labelled edges out of a type, in the order in which the three loops follow them. */
  function EdgesOf(r: Registry, aggregates: Aggregates, tid: TypeId): Edges {
    AttributeEdges(r, r.attributes(tid)) + ChildEdges(r, r.registered, tid) + AggregateEdges(r, aggregates, tid)
  }

  /** The same as one labelled graph. */
  type TypeGraph = TypeId -> Edges

  function GraphOf(r: Registry, aggregates: Aggregates): TypeGraph {
    tid => EdgesOf(r, aggregates, tid)
  }

  /** Edges lead from known types to known types. */
  ghost predicate ClosedGraph(g: TypeGraph, types: set<TypeId>) {
    forall t, i {:trigger g(t)[i]} :: t in types && 0 <= i < |g(t)| ==> g(t)[i].1 in types
  }

  // ---------------------------------------------------------------- what is gathered, as a function

  function JoinPath(path: seq<string>): string {
    if path == [] then "" else JoinPath(path[..|path| - 1]) + "/" + path[|path| - 1]
  }

  /** How many types the search may still enter. */
  ghost function Fresh(types: set<TypeId>, processed: seq<TypeId>): nat {
    |types - Items(processed)|
  }

  lemma {:induction false} FreshDrops(types: set<TypeId>, processed: seq<TypeId>, tid: TypeId)
    requires tid in types && tid !in Items(processed)
    ensures Fresh(types, processed + [tid]) < Fresh(types, processed)
  {
    assert (processed + [tid])[..|processed|] == processed;
    assert types - Items(processed) == (types - Items(processed + [tid])) + {tid};
  }

  ghost function Gathered(g: TypeGraph, types: set<TypeId>, tid: TypeId, processed: seq<TypeId>, path: seq<string>)
    : seq<(TypeId, string)>
    requires ClosedGraph(g, types) && tid in types
    decreases Fresh(types, processed), 1, 0
  {
    if tid in Items(processed) then [] else
    [(tid, JoinPath(path))] + GatheredAlong(g, types, tid, processed, path, |g(tid)|)
  }

  /** What is gathered along the first n edges of a type. */
  ghost function GatheredAlong(g: TypeGraph, types: set<TypeId>, tid: TypeId, processed: seq<TypeId>, path: seq<string>, n: nat)
    : seq<(TypeId, string)>
    requires ClosedGraph(g, types) && tid in types && tid !in Items(processed) && n <= |g(tid)|
    decreases Fresh(types, processed), 0, n
  {
    if n == 0 then [] else
    var (edge, target) := g(tid)[n - 1];
    FreshDrops(types, processed, tid);
    GatheredAlong(g, types, tid, processed, path, n - 1) + Gathered(g, types, target, processed + [tid], path + [edge])
  }

  /** On top of before, out holds the record of tid and what its first n edges have led to. */
  ghost predicate FollowedTo(g: TypeGraph, types: set<TypeId>, tid: TypeId, processed: seq<TypeId>, path: seq<string>,
                             before: seq<(TypeId, string)>, n: nat, out: seq<(TypeId, string)>)
    requires ClosedGraph(g, types) && tid in types && tid !in Items(processed) && n <= |g(tid)|
  {
    out == before + ([(tid, JoinPath(path))] + GatheredAlong(g, types, tid, processed, path, n))
  }

  lemma {:induction false} FollowedStep(g: TypeGraph, types: set<TypeId>, tid: TypeId, processed: seq<TypeId>, path: seq<string>,
                                        before: seq<(TypeId, string)>, n: nat, out: seq<(TypeId, string)>)
    requires ClosedGraph(g, types) && tid in types && tid !in Items(processed) && n < |g(tid)|
    requires FollowedTo(g, types, tid, processed, path, before, n, out)
    ensures FollowedTo(g, types, tid, processed, path, before, n + 1,
                       out + Gathered(g, types, g(tid)[n].1, processed + [tid], path + [g(tid)[n].0]))
  {
    FreshDrops(types, processed, tid);
    Regroup(before, [(tid, JoinPath(path))], GatheredAlong(g, types, tid, processed, path, n),
            Gathered(g, types, g(tid)[n].1, processed + [tid], path + [g(tid)[n].0]));
  }

  lemma {:induction false} Regroup<T>(a: seq<T>, b: seq<T>, c: seq<T>, d: seq<T>)
    ensures a + (b + c) + d == a + (b + (c + d))
  {
  }

  // ---------------------------------------------------------------- the program

  class StaticInformation {
    const r: Registry
    var output: seq<(TypeId, string)>
    var currentPath: seq<string>
    var alreadyProcessed: seq<TypeId>
    var aggregates: Aggregates

    var noTids: seq<string>

    constructor (r: Registry)
      ensures this.r == r && output == [] && currentPath == [] && alreadyProcessed == [] && aggregates == [] && noTids == []
    {
      this.r := r;
      output, currentPath, alreadyProcessed, aggregates, noTids := [], [], [], [], [];
    }

    /** Recording that a and b aggregate, or the name of the one of them that is not registered. */
    method RecordAggregationInfo(a: string, b: string)
      modifies this`aggregates, this`noTids
      ensures if r.lookup(a).Found? && r.lookup(b).Found?
        then aggregates == old(aggregates) + [(r.lookup(a).tid, r.lookup(b).tid)] && noTids == old(noTids)
        else aggregates == old(aggregates) && noTids == old(noTids) + [if r.lookup(a).NotFound? then a else b]
    {
      var aTid := r.lookup(a);
      if aTid.NotFound? {
        noTids := noTids + [a];
        return;
      }
      var bTid := r.lookup(b);
      if bTid.NotFound? {
        noTids := noTids + [b];
        return;
      }
      aggregates := aggregates + [(aTid.tid, bTid.tid)];
    }

    method GetCurrentPath() returns (s: string)
      ensures s == JoinPath(currentPath)
    {
      s := "";
      for i := 0 to |currentPath|
        invariant s == JoinPath(currentPath[..i])
      {
        assert currentPath[..i + 1][..i] == currentPath[..i];
        s := s + "/" + currentPath[i];
      }
      assert currentPath[..|currentPath|] == currentPath;
    }

    method RecordOutput(tid: TypeId)
      modifies this`output
      ensures output == old(output) + [(tid, JoinPath(currentPath))]
    {
      var s := GetCurrentPath();
      output := output + [(tid, s)];
    }

    method HasAlreadyBeenProcessed(tid: TypeId) returns (found: bool)
      ensures found <==> tid in Items(alreadyProcessed)
    {
      ItemsIff(alreadyProcessed);
      for i := 0 to |alreadyProcessed|
        invariant forall j :: 0 <= j < i ==> alreadyProcessed[j] != tid
      {
        if alreadyProcessed[i] == tid {
          return true;
        }
      }
      return false;
    }

    /** The record of tid and its first n edges have been gathered on top of before. */
    ghost predicate Followed(g: TypeGraph, tid: TypeId, before: seq<(TypeId, string)>, n: nat)
      reads this
      requires ClosedGraph(g, r.types) && tid in r.types && tid !in Items(alreadyProcessed)
      requires n <= |g(tid)|
    {
      FollowedTo(g, r.types, tid, alreadyProcessed, currentPath, before, n, output)
    }

    /** One edge: both stacks are pushed, the target is gathered, both are popped. */
    method Follow(ghost g: TypeGraph, tid: TypeId, edge: string, target: TypeId, ghost before: seq<(TypeId, string)>, ghost i: nat)
      requires g == GraphOf(r, aggregates) && ClosedGraph(g, r.types) && tid in r.types && tid !in Items(alreadyProcessed)
      requires i < |g(tid)| && g(tid)[i] == (edge, target)
      requires Followed(g, tid, before, i)
      modifies this`output, this`currentPath, this`alreadyProcessed
      ensures currentPath == old(currentPath) && alreadyProcessed == old(alreadyProcessed)
      ensures Followed(g, tid, before, i + 1)
      decreases Fresh(r.types, alreadyProcessed), 0, 0
    {
      FreshDrops(r.types, alreadyProcessed, tid);
      FollowedStep(g, r.types, tid, alreadyProcessed, currentPath, before, i, output);
      currentPath := currentPath + [edge];
      alreadyProcessed := alreadyProcessed + [tid];
      DoGather(g, target);
      alreadyProcessed := alreadyProcessed[..|alreadyProcessed| - 1];
      currentPath := currentPath[..|currentPath| - 1];
    }

    method DoGather(ghost g: TypeGraph, tid: TypeId)
      requires g == GraphOf(r, aggregates) && ClosedGraph(g, r.types) && tid in r.types
      modifies this`output, this`currentPath, this`alreadyProcessed
      ensures currentPath == old(currentPath) && alreadyProcessed == old(alreadyProcessed)
      ensures output == old(output) + Gathered(g, r.types, tid, alreadyProcessed, currentPath)
      decreases Fresh(r.types, alreadyProcessed), 1, 0
    {
      var done := HasAlreadyBeenProcessed(tid);
      if done {
        assert output == output + [];
        return;
      }
      ghost var before := output;
      RecordOutput(tid);
      IndexBounds(r, aggregates, tid);
      GatherAttributes(g, tid, before);
      GatherChildren(g, tid, before);
      GatherAggregates(g, tid, before);
    }

    /** The loop over the attributes of the type. */
    method GatherAttributes(ghost g: TypeGraph, tid: TypeId, ghost before: seq<(TypeId, string)>)
      requires g == GraphOf(r, aggregates) && ClosedGraph(g, r.types) && tid in r.types && tid !in Items(alreadyProcessed)
      requires AttributeIndex(r, tid, 0) == 0 && Followed(g, tid, before, 0)
      modifies this`output, this`currentPath, this`alreadyProcessed
      ensures currentPath == old(currentPath) && alreadyProcessed == old(alreadyProcessed)
      ensures AttributeIndex(r, tid, |r.attributes(tid)|) <= |g(tid)|
      ensures Followed(g, tid, before, AttributeIndex(r, tid, |r.attributes(tid)|))
      decreases Fresh(r.types, alreadyProcessed), 0, 1
    {
      var attributes := r.attributes(tid);
      ghost var n := AttributeIndex(r, tid, 0);
      for i := 0 to |attributes|
        invariant currentPath == old(currentPath) && alreadyProcessed == old(alreadyProcessed)
        invariant n == AttributeIndex(r, tid, i) && n <= |g(tid)|
        invariant Followed(g, tid, before, n)
      {
        AttributeStep(r, aggregates, tid, i);
        var info := attributes[i];
        if info.Pointer? {
          var pointee := info.pointee;
          if pointee == r.objectType {
            continue;
          }
          Follow(g, tid, info.name, pointee, before, n);
          n := n + 1;
        } else if info.Container? {
          Follow(g, tid, info.name + "/[i]", info.item, before, n);
          n := n + 1;
        }
      }
    }

    /** The loop over the registered types, of which the children of the type matter. */
    method GatherChildren(ghost g: TypeGraph, tid: TypeId, ghost before: seq<(TypeId, string)>)
      requires g == GraphOf(r, aggregates) && ClosedGraph(g, r.types) && tid in r.types && tid !in Items(alreadyProcessed)
      requires ChildIndex(r, tid, 0) <= |g(tid)| && Followed(g, tid, before, ChildIndex(r, tid, 0))
      modifies this`output, this`currentPath, this`alreadyProcessed
      ensures currentPath == old(currentPath) && alreadyProcessed == old(alreadyProcessed)
      ensures ChildIndex(r, tid, |r.registered|) <= |g(tid)|
      ensures Followed(g, tid, before, ChildIndex(r, tid, |r.registered|))
      decreases Fresh(r.types, alreadyProcessed), 0, 1
    {
      ghost var n := ChildIndex(r, tid, 0);
      for j := 0 to |r.registered|
        invariant currentPath == old(currentPath) && alreadyProcessed == old(alreadyProcessed)
        invariant n == ChildIndex(r, tid, j) && n <= |g(tid)|
        invariant Followed(g, tid, before, n)
      {
        ChildStep(r, aggregates, tid, j);
        var child := r.registered[j];
        if r.isChildOf(child, tid) {
          Follow(g, tid, "$" + r.name(child), child, before, n);
          n := n + 1;
        }
      }
    }

    /** The loop over the recorded aggregations, followed from either side. */
    method GatherAggregates(ghost g: TypeGraph, tid: TypeId, ghost before: seq<(TypeId, string)>)
      requires g == GraphOf(r, aggregates) && ClosedGraph(g, r.types) && tid in r.types && tid !in Items(alreadyProcessed)
      requires AggregateIndex(r, aggregates, tid, 0) <= |g(tid)|
      requires Followed(g, tid, before, AggregateIndex(r, aggregates, tid, 0))
      modifies this`output, this`currentPath, this`alreadyProcessed
      ensures currentPath == old(currentPath) && alreadyProcessed == old(alreadyProcessed)
      ensures AggregateIndex(r, aggregates, tid, |aggregates|) <= |g(tid)|
      ensures Followed(g, tid, before, AggregateIndex(r, aggregates, tid, |aggregates|))
      decreases Fresh(r.types, alreadyProcessed), 0, 1
    {
      ghost var n := AggregateIndex(r, aggregates, tid, 0);
      for k := 0 to |aggregates|
        invariant currentPath == old(currentPath) && alreadyProcessed == old(alreadyProcessed)
        invariant n == AggregateIndex(r, aggregates, tid, k) && n <= |g(tid)|
        invariant Followed(g, tid, before, n)
      {
        AggregateStep(r, aggregates, tid, k);
        var (first, second) := aggregates[k];
        if first == tid || second == tid {
          var other := tid;
          if first == tid {
            other := second;
          }
          if second == tid {
            other := first;
          }
          Follow(g, tid, "$" + r.name(other), other, before, n);
          n := n + 1;
        }
      }
    }

    /** What callers use.  What the sorting and pruning work on is a copy: the output keeps its order and its repetitions. */
    method Gather(tid: TypeId)
      requires ClosedGraph(GraphOf(r, aggregates), r.types) && tid in r.types && TotalOrder(r.entryLess)
      modifies this`output, this`currentPath, this`alreadyProcessed
      ensures currentPath == old(currentPath) && alreadyProcessed == old(alreadyProcessed)
      ensures output == old(output) + Gathered(GraphOf(r, aggregates), r.types, tid, alreadyProcessed, currentPath)
    {
      DoGather(GraphOf(r, aggregates), tid);
      var copy := Uniquefy(output, r.entryLess);
    }

    /** The configuration paths recorded for a type. */
    method Get(tid: TypeId) returns (paths: seq<string>)
      ensures paths == PathsOf(output, tid)
    {
      paths := [];
      for i := 0 to |output|
        invariant paths == PathsOf(output[..i], tid)
      {
        assert output[..i + 1][..i] == output[..i];
        if output[i].0 == tid {
          paths := paths + [output[i].1];
        }
      }
      assert output[..|output|] == output;
    }
  }

  ghost function PathsOf(output: seq<(TypeId, string)>, tid: TypeId): seq<string> {
    if output == [] then [] else
    var (t, path) := output[|output| - 1];
    PathsOf(output[..|output| - 1], tid) + (if t == tid then [path] else [])
  }

  /** The n-th edge of a type, seen from the loop that has come to it. */
  lemma {:induction false} EdgeAt(r: Registry, aggs: Aggregates, tid: TypeId, n: nat, e: (string, TypeId))
    requires
      var a, b, c := AttributeEdges(r, r.attributes(tid)), ChildEdges(r, r.registered, tid), AggregateEdges(r, aggs, tid);
      || (n < |a| && a[n] == e)
      || (|a| <= n < |a| + |b| && b[n - |a|] == e)
      || (|a| + |b| <= n < |a| + |b| + |c| && c[n - |a| - |b|] == e)
    ensures n < |GraphOf(r, aggs)(tid)| && GraphOf(r, aggs)(tid)[n] == e
  {
  }

  /** How many edges come before the i-th attribute, the j-th registered type and the k-th aggregation. */
  ghost function AttributeIndex(r: Registry, tid: TypeId, i: nat): nat
    requires i <= |r.attributes(tid)|
  {
    |AttributeEdges(r, r.attributes(tid)[..i])|
  }

  ghost function ChildIndex(r: Registry, tid: TypeId, j: nat): nat
    requires j <= |r.registered|
  {
    |AttributeEdges(r, r.attributes(tid))| + |ChildEdges(r, r.registered[..j], tid)|
  }

  ghost function AggregateIndex(r: Registry, aggs: Aggregates, tid: TypeId, k: nat): nat
    requires k <= |aggs|
  {
    |AttributeEdges(r, r.attributes(tid))| + |ChildEdges(r, r.registered, tid)| + |AggregateEdges(r, aggs[..k], tid)|
  }

  /** Each loop starts where the one before it ended. */
  lemma {:induction false} IndexBounds(r: Registry, aggs: Aggregates, tid: TypeId)
    ensures AttributeIndex(r, tid, 0) == 0
    ensures AttributeIndex(r, tid, |r.attributes(tid)|) == ChildIndex(r, tid, 0)
    ensures ChildIndex(r, tid, |r.registered|) == AggregateIndex(r, aggs, tid, 0)
    ensures AggregateIndex(r, aggs, tid, |aggs|) == |GraphOf(r, aggs)(tid)|
    ensures ChildIndex(r, tid, 0) <= AggregateIndex(r, aggs, tid, 0) <= |GraphOf(r, aggs)(tid)|
  {
    var attributes := r.attributes(tid);
    assert attributes[..0] == [] && attributes[..|attributes|] == attributes;
    assert r.registered[..0] == [] && r.registered[..|r.registered|] == r.registered;
    assert aggs[..0] == [] && aggs[..|aggs|] == aggs;
  }

  lemma {:induction false} AttributeStep(r: Registry, aggs: Aggregates, tid: TypeId, i: nat)
    requires i < |r.attributes(tid)|
    ensures var n := AttributeIndex(r, tid, i);
      match r.attributes(tid)[i]
      case Pointer(name, pointee) =>
        if pointee == r.objectType then AttributeIndex(r, tid, i + 1) == n
        else AttributeIndex(r, tid, i + 1) == n + 1 <= |GraphOf(r, aggs)(tid)| && GraphOf(r, aggs)(tid)[n] == (name, pointee)
      case Container(name, item) =>
        AttributeIndex(r, tid, i + 1) == n + 1 <= |GraphOf(r, aggs)(tid)| && GraphOf(r, aggs)(tid)[n] == (name + "/[i]", item)
      case Plain(_) => AttributeIndex(r, tid, i + 1) == n
  {
    AttributeEdgesPrefix(r, r.attributes(tid), i);
    var n := AttributeIndex(r, tid, i);
    match r.attributes(tid)[i]
    case Pointer(name, pointee) =>
      if pointee != r.objectType { EdgeAt(r, aggs, tid, n, (name, pointee)); }
    case Container(name, item) => EdgeAt(r, aggs, tid, n, (name + "/[i]", item));
    case Plain(_) =>
  }

  lemma {:induction false} ChildStep(r: Registry, aggs: Aggregates, tid: TypeId, j: nat)
    requires j < |r.registered|
    ensures var child := r.registered[j];
      var n := ChildIndex(r, tid, j);
      && ChildIndex(r, tid, j + 1) == (if r.isChildOf(child, tid) then n + 1 else n) <= |GraphOf(r, aggs)(tid)|
      && (r.isChildOf(child, tid) ==> GraphOf(r, aggs)(tid)[n] == ("$" + r.name(child), child))
  {
    ChildEdgesPrefix(r, r.registered, j, tid);
    var child := r.registered[j];
    if r.isChildOf(child, tid) {
      EdgeAt(r, aggs, tid, ChildIndex(r, tid, j), ("$" + r.name(child), child));
    }
  }

  lemma {:induction false} AggregateStep(r: Registry, aggs: Aggregates, tid: TypeId, k: nat)
    requires k < |aggs|
    ensures var (a, b) := aggs[k];
      var other := if b == tid then a else b;
      var n := AggregateIndex(r, aggs, tid, k);
      && AggregateIndex(r, aggs, tid, k + 1) == (if a == tid || b == tid then n + 1 else n) <= |GraphOf(r, aggs)(tid)|
      && (a == tid || b == tid ==> GraphOf(r, aggs)(tid)[n] == ("$" + r.name(other), other))
  {
    AggregateEdgesPrefix(r, aggs, k, tid);
    var (a, b) := aggs[k];
    var other := if b == tid then a else b;
    if a == tid || b == tid {
      EdgeAt(r, aggs, tid, AggregateIndex(r, aggs, tid, k), ("$" + r.name(other), other));
    }
  }

  lemma {:induction false} AttributeEdgesPrefix(r: Registry, attributes: seq<Attribute>, i: nat)
    requires i < |attributes|
    ensures AttributeEdges(r, attributes[..i + 1]) <= AttributeEdges(r, attributes)
    ensures AttributeEdges(r, attributes[..i + 1]) == AttributeEdges(r, attributes[..i]) +
      match attributes[i]
      case Pointer(name, pointee) => if pointee == r.objectType then [] else [(name, pointee)]
      case Container(name, item) => [(name + "/[i]", item)]
      case Plain(_) => []
    decreases |attributes|
  {
    var n := |attributes| - 1;
    assert attributes[..i + 1][..i] == attributes[..i];
    if i < n {
      AttributeEdgesPrefix(r, attributes[..n], i);
      assert attributes[..n][..i + 1] == attributes[..i + 1];
    } else {
      assert attributes[..i + 1] == attributes;
    }
  }

  lemma {:induction false} ChildEdgesPrefix(r: Registry, registered: seq<TypeId>, i: nat, tid: TypeId)
    requires i < |registered|
    ensures ChildEdges(r, registered[..i + 1], tid) <= ChildEdges(r, registered, tid)
    ensures ChildEdges(r, registered[..i + 1], tid) == ChildEdges(r, registered[..i], tid) +
      (if r.isChildOf(registered[i], tid) then [("$" + r.name(registered[i]), registered[i])] else [])
    decreases |registered|
  {
    var n := |registered| - 1;
    assert registered[..i + 1][..i] == registered[..i];
    if i < n {
      ChildEdgesPrefix(r, registered[..n], i, tid);
      assert registered[..n][..i + 1] == registered[..i + 1];
    } else {
      assert registered[..i + 1] == registered;
    }
  }

  lemma {:induction false} AggregateEdgesPrefix(r: Registry, aggregates: Aggregates, i: nat, tid: TypeId)
    requires i < |aggregates|
    ensures AggregateEdges(r, aggregates[..i + 1], tid) <= AggregateEdges(r, aggregates, tid)
    ensures var (a, b) := aggregates[i];
      var other := if b == tid then a else b;
      AggregateEdges(r, aggregates[..i + 1], tid) == AggregateEdges(r, aggregates[..i], tid) +
        (if a == tid || b == tid then [("$" + r.name(other), other)] else [])
    decreases |aggregates|
  {
    var n := |aggregates| - 1;
    assert aggregates[..i + 1][..i] == aggregates[..i];
    if i < n {
      AggregateEdgesPrefix(r, aggregates[..n], i, tid);
      assert aggregates[..n][..i + 1] == aggregates[..i + 1];
    } else {
      assert aggregates[..i + 1] == aggregates;
    }
  }
}
