/**
  Topological sorting of (parent, child) pairs, as one list and as a list of depth levels.

  The dictionaries of the program are maps held in local variables that the loops update
  key by key.  The order in which a dictionary lists its keys is left open: whatever
  enumeration WithoutParents chooses, the results below hold.
 */
module Topsort {
  import opened Sequences
  import opened DependencyGraph

  datatype Outcome =
    | Sorted(answer: seq<Item>)
    | CycleError(answer: seq<Item>, numParents: map<Item, int>, children: map<Item, seq<Item>>)

  /** What a consumer of the level generator sees: the lists, then the end or a CycleError. */
  datatype LevelsOutcome =
    | Exhausted(levels: seq<seq<Item>>)
    | LevelsCycleError(levels: seq<seq<Item>>, numParents: map<Item, int>, children: map<Item, seq<Item>>)

  // ---------------------------------------------------------------- specification

  ghost function Blocked(g: Graph): set<Item> {
    set x | x in g.nodes && BelowCycle(g, x)
  }

  /** For every blocked item, the number of pairs that still hold it back. */
  ghost function BlockedCounts(g: Graph): map<Item, int> {
    map x | x in Blocked(g) :: LiveParents(g.edges, g.nodes - Blocked(g), x)
  }

  ghost function BlockedChildren(g: Graph): map<Item, seq<Item>> {
    map p | p in Blocked(g) && Successors(g.edges, p) != [] :: Successors(g.edges, p)
  }

  ghost predicate ParentsFirst(g: Graph, s: seq<Item>) {
    forall j, p {:trigger (p, s[j]) in g.edges} :: 0 <= j < |s| && (p, s[j]) in g.edges ==> p in s[..j]
  }

  ghost predicate DepthOrdered(g: Graph, s: seq<Item>) {
    forall i, j, a, b :: 0 <= i <= j < |s| && AtDepth(g, s[i], a) && AtDepth(g, s[j], b) ==> a <= b
  }

  /**
    What topsort promises.  The answer lists each item no cycle leads to, once, parents before
    children, in order of depth; it is complete, and returned, exactly when there is no cycle.
    Otherwise the error carries the items left, how many pairs hold each back, and their children.
   */
  ghost predicate IsAnswer(g: Graph, r: Outcome) {
    && (r.Sorted? <==> !Cyclic(g))
    && Distinct(r.answer) && Items(r.answer) == g.nodes - Blocked(g)
    && ParentsFirst(g, r.answer) && DepthOrdered(g, r.answer)
    && (r.CycleError? ==> r.numParents == BlockedCounts(g) && r.children == BlockedChildren(g))
  }

  /** The lists are the depth levels of the graph: level k holds each item of depth k once. */
  ghost predicate AreLevels(g: Graph, levels: seq<seq<Item>>) {
    && (forall k :: 0 <= k < |levels| ==> levels[k] != [] && Distinct(levels[k]))
    && (forall k: nat, x :: k < |levels| ==> (x in Items(levels[k]) <==> AtDepth(g, x, k)))
    && (forall k: nat, x :: AtDepth(g, x, k) ==> k < |levels|)
  }

  /**
    What the level generator promises.  It yields the depth levels of the graph, and ends in an
    error exactly when there is a cycle, with the items left and how many pairs hold each back.
   */
  ghost predicate AreDepthLevels(g: Graph, r: LevelsOutcome) {
    && (r.Exhausted? <==> !Cyclic(g))
    && AreLevels(g, r.levels)
    && (r.LevelsCycleError? ==> r.numParents == BlockedCounts(g))
  }

  // ---------------------------------------------------------------- the dictionaries

  ghost function Listed(children: map<Item, seq<Item>>, p: Item): seq<Item> {
    if p in children then children[p] else []
  }

  /** Every item not yet gone is counted, with the number of its parents not yet gone. */
  ghost predicate Counted(g: Graph, gone: set<Item>, numParents: map<Item, int>) {
    && numParents.Keys == g.nodes - gone
    && forall x :: x in numParents ==> numParents[x] == LiveParents(g.edges, gone, x)
  }

  ghost predicate Tabled(g: Graph, gone: set<Item>, children: map<Item, seq<Item>>) {
    && children.Keys <= g.nodes - gone
    && forall p :: p in g.nodes - gone ==> Listed(children, p) == Successors(g.edges, p)
  }

  /** p has been retired and the first n of its children have been told. */
  ghost predicate Telling(g: Graph, gone: set<Item>, p: Item, n: nat, numParents: map<Item, int>) {
    && p in g.nodes - gone
    && n <= |Successors(g.edges, p)|
    && numParents.Keys == g.nodes - gone - {p}
    && forall x :: x in numParents ==>
      numParents[x] == LiveParents(g.edges, gone, x) - Occurrences(Successors(g.edges, p)[..n], x)
  }

  /** The next child to be told is still counted, and its count is positive. */
  lemma {:induction false} NextChildIsCounted(g: Graph, gone: set<Item>, p: Item, n: nat, numParents: map<Item, int>)
    requires g.Valid() && Telling(g, gone, p, n, numParents) && n < |Successors(g.edges, p)|
    requires forall q, x {:trigger (q, x) in g.edges} :: (q, x) in g.edges && x in gone + {p} ==> q in gone
    ensures Successors(g.edges, p)[n] in numParents
    ensures numParents[Successors(g.edges, p)[n]] > 0
  {
    var kids := Successors(g.edges, p);
    var x := kids[n];
    SuccessorsAreEdges(g.edges, p, x);
    RetireParent(g.edges, gone, p, x);
    OccurrencesUpTo(kids, n, x);
    OccurrencesUpTo(kids, n + 1, x);
  }

  lemma {:induction false} ToldOne(g: Graph, gone: set<Item>, p: Item, n: nat, before: map<Item, int>, after: map<Item, int>)
    requires Telling(g, gone, p, n, before) && n < |Successors(g.edges, p)|
    requires Successors(g.edges, p)[n] in before
    requires var x := Successors(g.edges, p)[n]; after == before[x := before[x] - 1]
    ensures Telling(g, gone, p, n + 1, after)
  {
    forall y | y in after
      ensures after[y] == LiveParents(g.edges, gone, y) - Occurrences(Successors(g.edges, p)[..n + 1], y)
    {
      OccurrencesUpTo(Successors(g.edges, p), n, y);
    }
  }

  lemma {:induction false} ToldAll(g: Graph, gone: set<Item>, p: Item, numParents: map<Item, int>)
    requires Telling(g, gone, p, |Successors(g.edges, p)|, numParents)
    ensures Counted(g, gone + {p}, numParents)
  {
    var kids := Successors(g.edges, p);
    assert kids[..|kids|] == kids;
    forall x | x in numParents
      ensures numParents[x] == LiveParents(g.edges, gone + {p}, x)
    {
      RetireParent(g.edges, gone, p, x);
    }
  }

  /** Counting the parents and listing the children of every item of the pair list. */
  method Tabulate(pairs: seq<(Item, Item)>) returns (numParents: map<Item, int>, children: map<Item, seq<Item>>)
    ensures Counted(FromPairs(pairs), {}, numParents)
    ensures Tabled(FromPairs(pairs), {}, children)
    ensures forall p :: p in children ==> children[p] != []
  {
    numParents, children := map[], map[];
    for i := 0 to |pairs|
      invariant Counted(FromPairs(pairs[..i]), {}, numParents)
      invariant Tabled(FromPairs(pairs[..i]), {}, children)
      invariant forall p :: p in children ==> children[p] != []
    {
      ghost var np, ch := numParents, children;
      var (parent, child) := pairs[i];
      if parent !in numParents {
        numParents := numParents[parent := 0];
      }
      if child !in numParents {
        numParents := numParents[child := 0];
      }
      numParents := numParents[child := numParents[child] + 1];
      children := children[parent := (if parent in children then children[parent] else []) + [child]];

      TabulatedOne(pairs, i, np, ch, numParents, children);
    }
    assert pairs[..|pairs|] == pairs;
  }

  lemma {:induction false} TabulatedOne(pairs: seq<(Item, Item)>, i: nat, np: map<Item, int>, ch: map<Item, seq<Item>>,
                     np': map<Item, int>, ch': map<Item, seq<Item>>)
    requires i < |pairs|
    requires Counted(FromPairs(pairs[..i]), {}, np) && Tabled(FromPairs(pairs[..i]), {}, ch)
    requires np'.Keys == np.Keys + {pairs[i].0, pairs[i].1}
    requires forall x :: x in np' ==>
      np'[x] == (if x in np then np[x] else 0) + (if x == pairs[i].1 then 1 else 0)
    requires ch' == ch[pairs[i].0 := Listed(ch, pairs[i].0) + [pairs[i].1]]
    ensures Counted(FromPairs(pairs[..i + 1]), {}, np') && Tabled(FromPairs(pairs[..i + 1]), {}, ch')
  {
    EndpointsExtend(pairs, i);
    forall x | x in np'
      ensures np'[x] == LiveParents(pairs[..i + 1], {}, x)
    {
      OneMorePair(pairs, i, x);
      if x !in np { UnlistedItem(pairs[..i], x); }
    }
    forall p | p in Endpoints(pairs[..i + 1])
      ensures Listed(ch', p) == Successors(pairs[..i + 1], p)
    {
      OneMorePair(pairs, i, p);
      if p !in np { UnlistedItem(pairs[..i], p); }
    }
  }

  lemma {:induction false} OneMorePair(pairs: seq<(Item, Item)>, i: nat, x: Item)
    requires i < |pairs|
    ensures LiveParents(pairs[..i + 1], {}, x) == LiveParents(pairs[..i], {}, x) + (if pairs[i].1 == x then 1 else 0)
    ensures Successors(pairs[..i + 1], x) == Successors(pairs[..i], x) + (if pairs[i].0 == x then [pairs[i].1] else [])
  {
    assert pairs[..i + 1][..i] == pairs[..i];
  }

  lemma {:induction false} EndpointsExtend(pairs: seq<(Item, Item)>, i: nat)
    requires i < |pairs|
    ensures Endpoints(pairs[..i + 1]) == Endpoints(pairs[..i]) + {pairs[i].0, pairs[i].1}
  {
    var a, b := pairs[..i], pairs[..i + 1];
    assert forall k :: 0 <= k < i ==> a[k] == b[k];
    assert b[i] == pairs[i];
  }

  lemma {:induction false} UnlistedItem(pairs: seq<(Item, Item)>, x: Item)
    requires x !in Endpoints(pairs)
    ensures LiveParents(pairs, {}, x) == 0 && Successors(pairs, x) == []
  {
    if pairs != [] {
      var n := |pairs| - 1;
      EndpointsExtend(pairs, n);
      assert pairs[..n + 1] == pairs;
      UnlistedItem(pairs[..n], x);
    }
  }

  /** The keys whose count is zero, in whatever order the dictionary lists them. */
  method WithoutParents(numParents: map<Item, int>) returns (free: seq<Item>)
    ensures Distinct(free)
    ensures forall x :: x in Items(free) <==> x in numParents && numParents[x] == 0
  {
    free := [];
    var keys := numParents.Keys;
    while keys != {}
      invariant keys <= numParents.Keys
      invariant Distinct(free)
      invariant forall x :: x in Items(free) <==> x in numParents && x !in keys && numParents[x] == 0
    {
      var x :| x in keys;
      keys := keys - {x};
      if numParents[x] == 0 {
        AppendDistinct(free, x);
        free := free + [x];
      }
    }
  }

  // ---------------------------------------------------------------- what is left at the end

  ghost predicate Bounded(g: Graph, x: Item) {
    exists k: nat :: !HasChain(g, x, k)
  }

  /** When no counted item is free, the items left are exactly those below a cycle. */
  lemma {:induction false} StuckIsBlocked(g: Graph, gone: set<Item>, numParents: map<Item, int>)
    requires g.Valid() && gone <= g.nodes && Counted(g, gone, numParents)
    requires forall x :: x in numParents ==> numParents[x] != 0
    requires forall x :: x in gone ==> Bounded(g, x)
    ensures Blocked(g) == g.nodes - gone && gone == g.nodes - Blocked(g)
    ensures numParents == BlockedCounts(g)
    ensures numParents == map[] <==> !Cyclic(g)
  {
    var left := g.nodes - gone;
    forall x {:trigger HasParentIn(g, left, x)} | x in left
      ensures HasParentIn(g, left, x)
    {
      NoLiveParents(g.edges, gone, x);
    }
    forall x | x in g.nodes
      ensures x in left <==> BelowCycle(g, x)
    {
      UnboundedIffBelowCycle(g, x);
      if x in left {
        forall k: nat ensures HasChain(g, x, k) {
          SelfSustaining(g, left, x, k);
        }
      }
    }
    assert left == Blocked(g);
    assert g.nodes - left == gone;
    CyclicIffBelow(g);
  }

  /** Of the children table, the rows of the items left are what remains. */
  lemma {:induction false} ChildrenLeft(g: Graph, gone: set<Item>, children: map<Item, seq<Item>>)
    requires Blocked(g) == g.nodes - gone && Tabled(g, gone, children)
    requires forall p :: p in children ==> children[p] != []
    ensures children == BlockedChildren(g)
  {
    var left := BlockedChildren(g);
    forall p | p in children ensures p in left && left[p] == children[p] {
      assert Listed(children, p) == Successors(g.edges, p);
    }
    forall p | p in left ensures p in children {
      assert Listed(children, p) == Successors(g.edges, p);
    }
  }

  // ---------------------------------------------------------------- topsort

  /** Position b of s holds the last parent of x; b is negative when x has no parent. */
  ghost predicate ReleasedBy(g: Graph, s: seq<Item>, x: Item, b: int) {
    if b < 0 then
      forall p {:trigger (p, x) in g.edges} :: (p, x) !in g.edges
    else
      && b < |s| && (s[b], x) in g.edges
      && (forall p {:trigger (p, x) in g.edges} :: (p, x) in g.edges ==> p in Items(s[..b + 1]))
  }

  /** Items stand in the order in which earlier items released them. */
  ghost predicate Fifo(g: Graph, s: seq<Item>, via: seq<int>) {
    && |s| == |via|
    && (s != [] ==>
      var n := |s| - 1;
      && via[n] < n && (n > 0 ==> via[n - 1] <= via[n])
      && ReleasedBy(g, s[..n], s[n], via[n])
      && Fifo(g, s[..n], via[..n]))
  }

  lemma {:induction false} FifoAt(g: Graph, s: seq<Item>, via: seq<int>)
    requires Fifo(g, s, via)
    ensures NonDecreasing(via)
    ensures forall j :: 0 <= j < |s| ==> via[j] < j && ReleasedBy(g, s[..j], s[j], via[j])
  {
    if s != [] {
      var n := |s| - 1;
      FifoAt(g, s[..n], via[..n]);
      forall j | 0 <= j < n ensures via[j] < j && ReleasedBy(g, s[..j], s[j], via[j]) {
        assert s[..n][..j] == s[..j];
      }
    }
  }

  lemma {:induction false} FifoAppend(g: Graph, s: seq<Item>, via: seq<int>, x: Item, b: int)
    requires Fifo(g, s, via) && ReleasedBy(g, s, x, b) && b < |s| && (via != [] ==> via[|via| - 1] <= b)
    ensures Fifo(g, s + [x], via + [b])
  {
    assert (s + [x])[..|s|] == s && (via + [b])[..|s|] == via;
  }

  lemma {:induction false} FifoParentsFirst(g: Graph, s: seq<Item>, via: seq<int>)
    requires Fifo(g, s, via)
    ensures ParentsFirst(g, s)
  {
    FifoAt(g, s, via);
    forall j, p | 0 <= j < |s| && (p, s[j]) in g.edges
      ensures p in s[..j]
    {
      ItemsIff(s[..j][..via[j] + 1]);
    }
  }

  lemma {:induction false} BoundedByPosition(g: Graph, order: seq<Item>, j: nat)
    requires ParentsFirst(g, order) && j < |order|
    ensures !HasChain(g, order[j], j + 1)
    decreases j
  {
    if HasChain(g, order[j], j + 1) {
      var p := ChainParent(g, order[j], j);
      var i :| 0 <= i < j && order[i] == p;
      BoundedByPosition(g, order, i);
      ShorterChain(g, p, i + 1, j);
    }
  }

  lemma {:induction false} BoundedByRelease(g: Graph, s: seq<Item>, via: seq<int>, j: nat) returns (d: nat)
    requires g.Valid() && Fifo(g, s, via) && j < |s| && s[j] in g.nodes
    ensures AtDepth(g, s[j], d)
  {
    FifoParentsFirst(g, s, via);
    BoundedByPosition(g, s, j);
    ChainZero(g, s[j]);
    d := SomeDepth(g, s[j], j + 1);
  }

  /** A released item is one level below the item that released it. */
  lemma {:induction false} ReleaseDepth(g: Graph, s: seq<Item>, via: seq<int>, j: nat, b: nat) returns (d: nat)
    requires g.Valid() && Fifo(g, s, via) && j < |s| && 0 <= via[j] < j && AtDepth(g, s[j], b)
    ensures AtDepth(g, s[via[j]], d) && d < b
  {
    FifoAt(g, s, via);
    d := BoundedByRelease(g, s, via, via[j]);
    ChainExtend(g, s[via[j]], s[j], d);
    if b <= d {
      ShorterChain(g, s[j], b + 1, d + 1);
    }
  }

  /** An item of positive depth has a parent one level up, no later than the one that released it. */
  lemma {:induction false} DeepParent(g: Graph, s: seq<Item>, via: seq<int>, i: nat, a: nat) returns (k: nat)
    requires g.Valid() && Fifo(g, s, via) && i < |s| && AtDepth(g, s[i], a) && a > 0
    ensures k <= via[i] < i && AtDepth(g, s[k], a - 1)
  {
    FifoAt(g, s, via);
    var p := ChainParent(g, s[i], a - 1);
    ItemsIff(s[..i][..via[i] + 1]);
    k :| 0 <= k <= via[i] && s[k] == p;
    if HasChain(g, p, a) {
      ChainExtend(g, p, s[i], a);
    }
  }

  /** First in, first out: along the list the depth never decreases. */
  lemma {:induction false} FifoDepths(g: Graph, s: seq<Item>, via: seq<int>, i: nat, j: nat, a: nat, b: nat)
    requires g.Valid() && Fifo(g, s, via)
    requires i <= j < |s| && AtDepth(g, s[i], a) && AtDepth(g, s[j], b)
    ensures a <= b
    decreases j
  {
    if a > 0 {
      var k := DeepParent(g, s, via, i, a);
      FifoAt(g, s, via);
      NonDecreasingIff(via);
      var d := ReleaseDepth(g, s, via, j, b);
      FifoDepths(g, s, via, k, via[j], a - 1, d);
    }
  }

  /** The answer so far: no item twice, in order of release, and holding every free counted item. */
  ghost predicate Queued(g: Graph, numParents: map<Item, int>, answer: seq<Item>, via: seq<int>) {
    && Distinct(answer) && Items(answer) <= g.nodes
    && (forall x :: x in numParents ==> (numParents[x] == 0 <==> x in Items(answer)))
    && Fifo(g, answer, via)
  }

  lemma {:induction false} Enqueue(g: Graph, before: map<Item, int>, x: Item, answer: seq<Item>, via: seq<int>, i: int)
    requires x in before && before[x] > 0 && x in g.nodes
    requires Queued(g, before, answer, via)
    requires before[x] == 1 ==> i < |answer| && ReleasedBy(g, answer, x, i) && (via != [] ==> via[|via| - 1] <= i)
    ensures before[x] == 1 ==> Queued(g, before[x := 0], answer + [x], via + [i])
    ensures before[x] > 1 ==> Queued(g, before[x := before[x] - 1], answer, via)
  {
    if before[x] == 1 {
      FifoAppend(g, answer, via, x, i);
      AppendDistinct(answer, x);
    }
  }

  /** Position i of the answer has just been retired, after all positions before it. */
  ghost predicate JustRetired(g: Graph, gone: set<Item>, answer: seq<Item>, i: int) {
    && 0 <= i < |answer| && gone == Items(answer[..i]) && answer[i] !in gone
    && (forall q, x {:trigger (q, x) in g.edges} :: (q, x) in g.edges && x in gone + {answer[i]} ==> q in gone)
  }

  ghost predicate LastAtMost(via: seq<int>, i: int) {
    via != [] ==> via[|via| - 1] <= i
  }

  ghost predicate Extends<T>(a: seq<T>, b: seq<T>) {
    |a| <= |b| && b[..|a|] == a
  }

  lemma {:induction false} TellOne(g: Graph, gone: set<Item>, start: seq<Item>, i: nat, n: nat, before: map<Item, int>,
                                   answer: seq<Item>, via: seq<int>)
    requires g.Valid() && JustRetired(g, gone, start, i) && Extends(start, answer)
    requires Telling(g, gone, start[i], n, before) && n < |Successors(g.edges, start[i])|
    requires Queued(g, before, answer, via) && LastAtMost(via, i)
    ensures var x := Successors(g.edges, start[i])[n]; x in before && before[x] > 0
    ensures var x := Successors(g.edges, start[i])[n];
      var released := before[x] == 1;
      && Telling(g, gone, start[i], n + 1, before[x := before[x] - 1])
      && Extends(start, if released then answer + [x] else answer)
      && LastAtMost(if released then via + [i] else via, i)
      && Queued(g, before[x := before[x] - 1], if released then answer + [x] else answer,
                if released then via + [i] else via)
  {
    var x := Successors(g.edges, start[i])[n];
    assert answer[..i] == start[..i] by { SamePrefix(start, answer, i); }
    NextChildIsCounted(g, gone, start[i], n, before);
    var after := before[x := before[x] - 1];
    ToldOne(g, gone, start[i], n, before, after);
    if before[x] == 1 {
      ChildReleased(g, gone, n, after, answer, i);
      assert (answer + [x])[..|start|] == answer[..|start|];
    }
    Enqueue(g, before, x, answer, via, i);
  }

  /** The child whose count has just reached zero has all its parents among those retired. */
  lemma {:induction false} ChildReleased(g: Graph, gone: set<Item>, n: nat, after: map<Item, int>,
                                         answer: seq<Item>, i: nat)
    requires g.Valid() && JustRetired(g, gone, answer, i) && Telling(g, gone, answer[i], n + 1, after)
    requires Successors(g.edges, answer[i])[n] in after && after[Successors(g.edges, answer[i])[n]] == 0
    ensures ReleasedBy(g, answer, Successors(g.edges, answer[i])[n], i)
  {
    var kids := Successors(g.edges, answer[i]);
    var x := kids[n];
    SuccessorsAreEdges(g.edges, answer[i], x);
    RetireParent(g.edges, gone, answer[i], x);
    OccurrencesUpTo(kids, n + 1, x);
    assert LiveParents(g.edges, gone + {answer[i]}, x) == 0;
    NoLiveParents(g.edges, gone + {answer[i]}, x);
    assert answer[..i + 1] == answer[..i] + [answer[i]];
    assert Items(answer[..i + 1]) == gone + {answer[i]} by { ItemsPrefix(answer, i); }
  }

  /** Telling every child that its parent is retired, and appending those this releases. */
  method KnockDown(ghost g: Graph, ghost gone: set<Item>, ghost i: nat, kids: seq<Item>,
                   counts: map<Item, int>, start: seq<Item>, ghost via0: seq<int>)
    returns (numParents: map<Item, int>, answer: seq<Item>, ghost via: seq<int>)
    requires g.Valid() && JustRetired(g, gone, start, i)
    requires kids == Successors(g.edges, start[i]) && Telling(g, gone, start[i], 0, counts)
    requires Queued(g, counts, start, via0) && LastAtMost(via0, i)
    ensures Extends(start, answer)
    ensures Telling(g, gone, start[i], |Successors(g.edges, start[i])|, numParents)
    ensures Queued(g, numParents, answer, via) && LastAtMost(via, i)
  {
    numParents, answer, via := counts, start, via0;
    for n := 0 to |kids|
      invariant Extends(start, answer)
      invariant Telling(g, gone, start[i], n, numParents)
      invariant Queued(g, numParents, answer, via) && LastAtMost(via, i)
    {
      TellOne(g, gone, start, i, n, numParents, answer, via);
      var child := kids[n];
      numParents := numParents[child := numParents[child] - 1];
      if numParents[child] == 0 {
        answer := answer + [child];
        via := via + [i];
      }
    }
  }

  /** The next item of the answer has no parent left, so it can be retired. */
  lemma {:induction false} Retiring(g: Graph, answer: seq<Item>, via: seq<int>, i: nat, numParents: map<Item, int>)
    requires i < |answer| && Counted(g, Items(answer[..i]), numParents)
    requires Queued(g, numParents, answer, via)
    ensures answer[i] in numParents && JustRetired(g, Items(answer[..i]), answer, i)
    ensures Items(answer[..i + 1]) == Items(answer[..i]) + {answer[i]}
    ensures Telling(g, Items(answer[..i]), answer[i], 0, numParents - {answer[i]})
    ensures Queued(g, numParents - {answer[i]}, answer, via)
  {
    var gone := Items(answer[..i]);
    ItemsIff(answer);
    ItemsIff(answer[..i]);
    ItemsPrefix(answer, i);
    DistinctIff(answer);
    NoLiveParents(g.edges, gone, answer[i]);
    FifoParentsFirst(g, answer, via);
    forall q, x | (q, x) in g.edges && x in gone + {answer[i]}
      ensures q in gone
    {
      var j :| 0 <= j <= i && answer[j] == x;
      assert q in answer[..j];
      assert answer[..j] <= answer[..i];
    }
  }

  /** The first i items of the answer are retired; the rest of it is waiting. */
  ghost predicate Sorting(g: Graph, i: nat, numParents: map<Item, int>, children: map<Item, seq<Item>>,
                          answer: seq<Item>, via: seq<int>) {
    && i <= |answer| && Queued(g, numParents, answer, via)
    && Counted(g, Items(answer[..i]), numParents)
    && Tabled(g, Items(answer[..i]), children)
    && (forall p :: p in children ==> children[p] != [])
    && LastAtMost(via, i)
  }

  lemma {:induction false} SortingStep(g: Graph, i: nat, start: seq<Item>, numParents: map<Item, int>,
                                       children: map<Item, seq<Item>>, answer: seq<Item>, via: seq<int>)
    requires i < |start| && Extends(start, answer)
    requires Queued(g, numParents, answer, via) && LastAtMost(via, i)
    requires Telling(g, Items(start[..i]), start[i], |Successors(g.edges, start[i])|, numParents)
    requires Tabled(g, Items(start[..i]), children)
    requires forall p :: p in children ==> children[p] != []
    ensures Sorting(g, i + 1, numParents, if start[i] in children then children - {start[i]} else children, answer, via)
  {
    ToldAll(g, Items(start[..i]), start[i], numParents);
    SamePrefix(start, answer, i + 1);
    ItemsPrefix(start, i);
    var children' := if start[i] in children then children - {start[i]} else children;
    forall p | p in g.nodes - Items(answer[..i + 1])
      ensures Listed(children', p) == Successors(g.edges, p)
    {
      assert Listed(children', p) == Listed(children, p);
    }
  }

  lemma {:induction false} SortingDone(g: Graph, numParents: map<Item, int>, children: map<Item, seq<Item>>,
                                       answer: seq<Item>, via: seq<int>)
    requires g.Valid() && Sorting(g, |answer|, numParents, children, answer, via)
    ensures IsAnswer(g, if numParents != map[] then CycleError(answer, numParents, children) else Sorted(answer))
  {
    assert answer[..|answer|] == answer;
    FifoParentsFirst(g, answer, via);
    ItemsIff(answer);
    forall x | x in Items(answer) ensures Bounded(g, x) {
      var j :| 0 <= j < |answer| && answer[j] == x;
      BoundedByPosition(g, answer, j);
    }
    StuckIsBlocked(g, Items(answer), numParents);
    ChildrenLeft(g, Items(answer), children);
    forall i, j, a, b | 0 <= i <= j < |answer| && AtDepth(g, answer[i], a) && AtDepth(g, answer[j], b)
      ensures a <= b
    {
      FifoDepths(g, answer, via, i, j, a, b);
    }
  }

  /** The body of the main loop: the next item of the answer is retired. */
  method RetireNext(ghost g: Graph, i: nat, counts: map<Item, int>, table: map<Item, seq<Item>>,
                    start: seq<Item>, ghost via0: seq<int>)
    returns (numParents: map<Item, int>, children: map<Item, seq<Item>>, answer: seq<Item>, ghost via: seq<int>)
    requires g.Valid() && i < |start| && Sorting(g, i, counts, table, start, via0)
    ensures i < |answer| && Sorting(g, i + 1, numParents, children, answer, via)
    ensures numParents.Keys < counts.Keys
  {
    var parent := start[i];
    numParents, children, answer, via := counts - {parent}, table, start, via0;
    Retiring(g, start, via0, i, counts);
    if parent in children {
      numParents, answer, via := KnockDown(g, Items(start[..i]), i, children[parent], numParents, answer, via);
      children := children - {parent};
    } else {
      assert Listed(children, parent) == Successors(g.edges, parent) == [];
    }
    SortingStep(g, i, start, numParents, table, answer, via);
  }

  method Topsort(pairs: seq<(Item, Item)>) returns (r: Outcome)
    ensures IsAnswer(FromPairs(pairs), r)
  {
    ghost var g := FromPairs(pairs);
    var numParents, children := Tabulate(pairs);
    var answer := WithoutParents(numParents);
    ghost var via := SortingStart(g, numParents, children, answer);
    var i := 0;
    while i < |answer|
      invariant i <= |answer| && Sorting(g, i, numParents, children, answer, via)
      decreases numParents.Keys
    {
      numParents, children, answer, via := RetireNext(g, i, numParents, children, answer, via);
      i := i + 1;
    }
    SortingDone(g, numParents, children, answer, via);
    if numParents != map[] {
      r := CycleError(answer, numParents, children);
    } else {
      r := Sorted(answer);
    }
  }

  lemma {:induction false} SortingStart(g: Graph, numParents: map<Item, int>, children: map<Item, seq<Item>>,
                                        answer: seq<Item>) returns (via: seq<int>)
    requires Counted(g, {}, numParents) && Tabled(g, {}, children) && Distinct(answer)
    requires forall p :: p in children ==> children[p] != []
    requires forall x :: x in Items(answer) <==> x in numParents && numParents[x] == 0
    ensures Sorting(g, 0, numParents, children, answer, via)
  {
    via := FifoFree(g, answer, numParents);
  }

  lemma {:induction false} FifoFree(g: Graph, free: seq<Item>, numParents: map<Item, int>) returns (via: seq<int>)
    requires Counted(g, {}, numParents)
    requires forall x :: x in Items(free) ==> x in numParents && numParents[x] == 0
    ensures Fifo(g, free, via) && LastAtMost(via, -1)
  {
    if free == [] {
      via := [];
    } else {
      var n := |free| - 1;
      var init := FifoFree(g, free[..n], numParents);
      assert free[n] in Items(free);
      NoLiveParents(g.edges, {}, free[n]);
      via := init + [-1];
      assert via[..n] == init;
    }
  }

  lemma {:induction false} ItemsPrefix<T>(s: seq<T>, i: nat)
    requires i < |s|
    ensures Items(s[..i + 1]) == Items(s[..i]) + {s[i]}
  {
    assert s[..i + 1][..i] == s[..i];
  }

  lemma {:induction false} SamePrefix<T>(a: seq<T>, b: seq<T>, n: nat)
    requires n <= |a| && Extends(a, b)
    ensures a[..n] == b[..n]
  {
    assert b[..n] == b[..|a|][..n];
  }

  // ---------------------------------------------------------------- topsort_levels

  /** The items whose longest chain of predecessors is shorter than k. */
  ghost function Shallow(g: Graph, k: nat): set<Item> {
    set x | x in g.nodes && !HasChain(g, x, k)
  }

  /** With every shallower item gone, the free items are those of depth k. */
  lemma {:induction false} FreeAtDepth(g: Graph, k: nat, numParents: map<Item, int>, level: seq<Item>)
    requires g.Valid() && Counted(g, Shallow(g, k), numParents)
    requires forall x :: x in Items(level) <==> x in numParents && numParents[x] == 0
    ensures forall x :: x in Items(level) <==> AtDepth(g, x, k)
    ensures Shallow(g, k) + Items(level) == Shallow(g, k + 1)
    ensures Distinct(level) ==> LevelAfter(g, Shallow(g, k), level)
  {
    forall x | x in g.nodes
      ensures x in Shallow(g, k + 1) <==> forall q :: (q, x) in g.edges ==> q in Shallow(g, k)
    {
      if HasChain(g, x, k + 1) {
        var q := ChainParent(g, x, k);
      } else {
        forall q | (q, x) in g.edges ensures q in Shallow(g, k) {
          if HasChain(g, q, k) { ChainExtend(g, q, x, k); }
        }
      }
    }
    forall x
      ensures x in Items(level) <==> AtDepth(g, x, k)
      ensures x in Shallow(g, k + 1) <==> x in Shallow(g, k) || x in Items(level)
    {
      NoLiveParents(g.edges, Shallow(g, k), x);
      if HasChain(g, x, k) {
        ShorterChain(g, x, 0, k);
        ChainZero(g, x);
      }
      if HasChain(g, x, k + 1) { ShorterChain(g, x, k, k + 1); }
    }
  }

  /** Telling every child of a retired item. */
  method TellChildren(ghost g: Graph, ghost gone: set<Item>, ghost parent: Item, kids: seq<Item>, counts: map<Item, int>)
    returns (numParents: map<Item, int>)
    requires g.Valid() && kids == Successors(g.edges, parent) && Telling(g, gone, parent, 0, counts)
    requires forall q, x {:trigger (q, x) in g.edges} :: (q, x) in g.edges && x in gone + {parent} ==> q in gone
    ensures Telling(g, gone, parent, |Successors(g.edges, parent)|, numParents)
  {
    numParents := counts;
    for n := 0 to |kids|
      invariant Telling(g, gone, parent, n, numParents)
    {
      NextChildIsCounted(g, gone, parent, n, numParents);
      ghost var before := numParents;
      numParents := numParents[kids[n] := numParents[kids[n]] - 1];
      ToldOne(g, gone, parent, n, before, numParents);
    }
  }

  /** What is left of the children table once the items of gone are deleted. */
  ghost function Remaining(table: map<Item, seq<Item>>, gone: set<Item>): map<Item, seq<Item>> {
    map p | p in table && p !in gone :: table[p]
  }

  /** The first j items of the level are retired, after all the items of base. */
  ghost predicate LevelRetired(g: Graph, base: set<Item>, level: seq<Item>, j: nat, table: map<Item, seq<Item>>,
                               numParents: map<Item, int>, children: map<Item, seq<Item>>)
    requires j <= |level|
  {
    var gone := base + Items(level[..j]);
    Counted(g, gone, numParents) && Tabled(g, gone, children) && children == Remaining(table, gone)
  }

  /** The level's items have all their parents in base. */
  ghost predicate LevelAfter(g: Graph, base: set<Item>, level: seq<Item>) {
    && Distinct(level) && Items(level) <= g.nodes - base
    && (forall q, x {:trigger (q, x) in g.edges} :: (q, x) in g.edges && x in base + Items(level) ==> q in base)
  }

  method RetireOne(ghost g: Graph, ghost base: set<Item>, level: seq<Item>, j: nat, ghost table: map<Item, seq<Item>>,
                   counts: map<Item, int>, rows: map<Item, seq<Item>>)
    returns (numParents: map<Item, int>, children: map<Item, seq<Item>>)
    requires g.Valid() && LevelAfter(g, base, level)
    requires j < |level| && LevelRetired(g, base, level, j, table, counts, rows)
    ensures LevelRetired(g, base, level, j + 1, table, numParents, children)
  {
    var parent := level[j];
    ghost var gone := base + Items(level[..j]);
    LevelParent(g, base, level, j, counts);
    numParents, children := counts - {parent}, rows;
    if parent in children {
      numParents := TellChildren(g, gone, parent, children[parent], numParents);
      children := children - {parent};
    } else {
      assert Listed(children, parent) == Successors(g.edges, parent) == [];
    }
    LevelParentRetired(g, base, level, j, numParents, table, rows);
  }

  /** Retiring the items of one level, in order. */
  method RetireLevel(ghost g: Graph, ghost base: set<Item>, level: seq<Item>,
                     counts: map<Item, int>, table: map<Item, seq<Item>>)
    returns (numParents: map<Item, int>, children: map<Item, seq<Item>>)
    requires g.Valid() && LevelAfter(g, base, level)
    requires Counted(g, base, counts) && Tabled(g, base, table)
    ensures Counted(g, base + Items(level), numParents) && Tabled(g, base + Items(level), children)
    ensures children == Remaining(table, base + Items(level))
  {
    numParents, children := counts, table;
    assert base + Items(level[..0]) == base && Remaining(table, base) == table;
    for j := 0 to |level|
      invariant LevelRetired(g, base, level, j, table, numParents, children)
    {
      numParents, children := RetireOne(g, base, level, j, table, numParents, children);
    }
    assert level[..|level|] == level;
  }

  lemma {:induction false} LevelParent(g: Graph, base: set<Item>, level: seq<Item>, j: nat, numParents: map<Item, int>)
    requires j < |level| && LevelAfter(g, base, level)
    requires Counted(g, base + Items(level[..j]), numParents)
    ensures level[j] in numParents
    ensures Telling(g, base + Items(level[..j]), level[j], 0, numParents - {level[j]})
    ensures forall q, x {:trigger (q, x) in g.edges} ::
      (q, x) in g.edges && x in base + Items(level[..j]) + {level[j]} ==> q in base + Items(level[..j])
  {
    ItemsIff(level);
    ItemsIff(level[..j]);
    DistinctIff(level);
    assert level[j] in Items(level) && level[j] !in Items(level[..j]);
    assert forall x :: x in Items(level[..j]) ==> x in Items(level);
  }

  lemma {:induction false} LevelParentRetired(g: Graph, base: set<Item>, level: seq<Item>, j: nat, numParents: map<Item, int>,
                                              table: map<Item, seq<Item>>, children: map<Item, seq<Item>>)
    requires j < |level|
    requires var gone := base + Items(level[..j]);
      && Telling(g, gone, level[j], |Successors(g.edges, level[j])|, numParents)
      && Tabled(g, gone, children) && children == Remaining(table, gone)
    ensures LevelRetired(g, base, level, j + 1, table, numParents,
                         if level[j] in children then children - {level[j]} else children)
  {
    var gone := base + Items(level[..j]);
    ToldAll(g, gone, level[j], numParents);
    ItemsPrefix(level, j);
    assert gone + {level[j]} == base + Items(level[..j + 1]);
    var children' := if level[j] in children then children - {level[j]} else children;
    forall p | p in g.nodes - (gone + {level[j]})
      ensures Listed(children', p) == Successors(g.edges, p)
    {
      assert Listed(children', p) == Listed(children, p);
    }
  }

  /** The levels so far are those of depth less than k. */
  ghost predicate LevelsBelow(g: Graph, k: nat, levels: seq<seq<Item>>) {
    && k == |levels|
    && (forall i :: 0 <= i < k ==> levels[i] != [] && Distinct(levels[i]))
    && (forall i: nat, x :: i < k ==> (x in Items(levels[i]) <==> AtDepth(g, x, i)))
  }

  /** The levels yielded so far are retired, and nothing else is. */
  ghost predicate Levelling(g: Graph, table: map<Item, seq<Item>>, levels: seq<seq<Item>>,
                            numParents: map<Item, int>, children: map<Item, seq<Item>>) {
    && LevelsBelow(g, |levels|, levels)
    && Counted(g, Shallow(g, |levels|), numParents)
    && Tabled(g, Shallow(g, |levels|), children)
    && children == Remaining(table, Shallow(g, |levels|))
  }

  /** The body of the generator's loop: one more level is yielded and retired. */
  method NextLevel(ghost g: Graph, ghost table: map<Item, seq<Item>>, levels: seq<seq<Item>>, level: seq<Item>,
                   counts: map<Item, int>, rows: map<Item, seq<Item>>)
    returns (numParents: map<Item, int>, children: map<Item, seq<Item>>)
    requires g.Valid() && Levelling(g, table, levels, counts, rows)
    requires level != [] && Distinct(level)
    requires forall x :: x in Items(level) <==> x in counts && counts[x] == 0
    ensures Levelling(g, table, levels + [level], numParents, children)
    ensures numParents.Keys < counts.Keys
  {
    ghost var k := |levels|;
    FreeAtDepth(g, k, counts, level);
    assert level[|level| - 1] in Items(level);
    numParents, children := RetireLevel(g, Shallow(g, k), level, counts, rows);
    RemainingTwice(table, Shallow(g, k), Shallow(g, k + 1));
    LevelsExtend(g, levels, level);
  }

  lemma {:induction false} LevelsExtend(g: Graph, levels: seq<seq<Item>>, level: seq<Item>)
    requires LevelsBelow(g, |levels|, levels) && level != [] && Distinct(level)
    requires forall x :: x in Items(level) <==> AtDepth(g, x, |levels|)
    ensures LevelsBelow(g, |levels| + 1, levels + [level])
  {
  }

  lemma {:induction false} RemainingTwice(table: map<Item, seq<Item>>, a: set<Item>, b: set<Item>)
    requires a <= b
    ensures Remaining(Remaining(table, a), b) == Remaining(table, b)
  {
  }

  method TopsortLevelsCore(ghost g: Graph, counts: map<Item, int>, table: map<Item, seq<Item>>)
    returns (r: LevelsOutcome)
    requires g.Valid() && Counted(g, {}, counts) && Tabled(g, {}, table)
    ensures AreDepthLevels(g, r)
    ensures r.LevelsCycleError? ==> r.children == Remaining(table, g.nodes - Blocked(g))
  {
    var numParents, children := counts, table;
    var levels: seq<seq<Item>> := [];
    LevelsStart(g, table);
    while true
      invariant Levelling(g, table, levels, numParents, children)
      decreases numParents.Keys
    {
      var level := WithoutParents(numParents);
      if level == [] {
        break;
      }
      numParents, children := NextLevel(g, table, levels, level, numParents, children);
      levels := levels + [level];
    }
    LevelsEnd(g, table, levels, numParents, children);
    if numParents != map[] {
      r := LevelsCycleError(levels, numParents, children);
    } else {
      r := Exhausted(levels);
    }
  }

  lemma {:induction false} LevelsStart(g: Graph, table: map<Item, seq<Item>>)
    ensures Shallow(g, 0) == {} && Remaining(table, {}) == table
  {
    forall x | x in g.nodes ensures HasChain(g, x, 0) { ChainZero(g, x); }
  }

  lemma {:induction false} LevelsEnd(g: Graph, table: map<Item, seq<Item>>, levels: seq<seq<Item>>,
                                     numParents: map<Item, int>, children: map<Item, seq<Item>>)
    requires g.Valid() && Levelling(g, table, levels, numParents, children)
    requires forall x :: x in numParents ==> numParents[x] != 0
    ensures AreDepthLevels(g,
      if numParents != map[] then LevelsCycleError(levels, numParents, children) else Exhausted(levels))
    ensures children == Remaining(table, g.nodes - Blocked(g))
  {
    var k := |levels|;
    forall x | x in Shallow(g, k) ensures Bounded(g, x) {}
    StuckIsBlocked(g, Shallow(g, k), numParents);
    forall j: nat, x | AtDepth(g, x, j) ensures j < k {
      if k <= j {
        ShorterChain(g, x, k, j);
        ShorterChain(g, x, 0, j);
        ChainZero(g, x);
        assert x in Blocked(g);
        UnboundedIffBelowCycle(g, x);
      }
    }
  }

  method TopsortLevels(pairs: seq<(Item, Item)>) returns (r: LevelsOutcome)
    ensures AreDepthLevels(FromPairs(pairs), r)
    ensures r.LevelsCycleError? ==> r.children == BlockedChildren(FromPairs(pairs))
  {
    ghost var g := FromPairs(pairs);
    var numParents, children := Tabulate(pairs);
    r := TopsortLevelsCore(g, numParents, children);
    RemainingChildren(g, children);
  }

  lemma {:induction false} RemainingChildren(g: Graph, table: map<Item, seq<Item>>)
    requires Tabled(g, {}, table) && forall p :: p in table ==> table[p] != []
    ensures Remaining(table, g.nodes - Blocked(g)) == BlockedChildren(g)
  {
    var left, rows := Remaining(table, g.nodes - Blocked(g)), BlockedChildren(g);
    forall p | p in left ensures p in rows && rows[p] == left[p] {
      assert Listed(table, p) == Successors(g.edges, p);
    }
    forall p | p in rows ensures p in left {
      assert Listed(table, p) == Successors(g.edges, p);
    }
  }
}
