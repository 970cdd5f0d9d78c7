/**
  How the two sorts relate to each other and to what their comments say.
 */
module TopsortLaws {
  import opened Sequences
  import opened DependencyGraph
  import opened Topsort

  /** The number of items in the first k levels. */
  ghost function Start(levels: seq<seq<Item>>, k: nat): nat
    requires k <= |levels|
  {
    if k == 0 then 0 else Start(levels, k - 1) + |levels[k - 1]|
  }

  /** The k-th segment of the answer, as long as the k-th level, is a permutation of that level. */
  ghost predicate PermutesLevel(answer: seq<Item>, levels: seq<seq<Item>>, k: nat)
    requires k < |levels|
  {
    && Start(levels, k + 1) <= |answer|
    && multiset(answer[Start(levels, k)..Start(levels, k + 1)]) == multiset(levels[k])
  }

  /**
    topsort refines topsort_levels: run on the same pairs, its answer is the concatenation of
    one permutation of each level, and the two agree on whether there is a cycle and on what
    is left over.
   */
  lemma {:induction false} AnswerConcatenatesLevels(g: Graph, r: Outcome, l: LevelsOutcome)
    requires g.Valid() && IsAnswer(g, r) && AreDepthLevels(g, l)
    ensures r.Sorted? <==> l.Exhausted?
    ensures r.CycleError? ==> r.numParents == l.numParents
    ensures Start(l.levels, |l.levels|) == |r.answer|
    ensures forall k :: 0 <= k < |l.levels| ==> PermutesLevel(r.answer, l.levels, k)
  {
    var n := |l.levels|;
    forall k | 0 <= k < n
      ensures PermutesLevel(r.answer, l.levels, k)
    {
      CutAt(g, r, l.levels, k);
      OneLevel(g, r, l.levels, k);
    }
    CutAt(g, r, l.levels, n);
    if Start(l.levels, n) < |r.answer| {
      var x := r.answer[Start(l.levels, n)];
      var d := AnswerDepth(g, r, Start(l.levels, n));
      ShorterChain(g, x, d + 1, n);
    }
  }

  /** The first items of the answer, as many as the first k levels hold, are those of depth below k. */
  ghost predicate Cut(g: Graph, answer: seq<Item>, at: nat, k: nat) {
    && at <= |answer|
    && forall j :: 0 <= j < |answer| ==> (HasChain(g, answer[j], k) <==> at <= j)
  }

  lemma {:induction false} AnswerDepth(g: Graph, r: Outcome, j: nat) returns (d: nat)
    requires g.Valid() && IsAnswer(g, r) && j < |r.answer|
    ensures AtDepth(g, r.answer[j], d)
  {
    var x := r.answer[j];
    ItemsIff(r.answer);
    assert x in g.nodes - Blocked(g);
    if HasChain(g, x, |g.nodes|) {
      LongChainRepeats(g, x);
    }
    ChainZero(g, x);
    d := SomeDepth(g, x, |g.nodes|);
  }

  lemma {:induction false} ChainsGrow(g: Graph, r: Outcome, i: nat, j: nat, k: nat)
    requires g.Valid() && IsAnswer(g, r) && i <= j < |r.answer| && HasChain(g, r.answer[i], k)
    ensures HasChain(g, r.answer[j], k)
  {
    var a := AnswerDepth(g, r, i);
    var b := AnswerDepth(g, r, j);
    if a < k { ShorterChain(g, r.answer[i], a + 1, k); }
    ShorterChain(g, r.answer[j], k, b);
  }

  /** Where the items with a chain of length k begin. */
  lemma {:induction false} FirstDeep(g: Graph, r: Outcome, k: nat) returns (at: nat)
    requires g.Valid() && IsAnswer(g, r)
    ensures Cut(g, r.answer, at, k)
  {
    at := 0;
    while at < |r.answer| && !HasChain(g, r.answer[at], k)
      invariant 0 <= at <= |r.answer|
      invariant forall j :: 0 <= j < at ==> !HasChain(g, r.answer[j], k)
    {
      at := at + 1;
    }
    forall j | at <= j < |r.answer| ensures HasChain(g, r.answer[j], k) {
      ChainsGrow(g, r, at, j, k);
    }
  }

  lemma {:induction false} CutAt(g: Graph, r: Outcome, levels: seq<seq<Item>>, k: nat)
    requires g.Valid() && IsAnswer(g, r) && AreLevels(g, levels) && k <= |levels|
    ensures Cut(g, r.answer, Start(levels, k), k)
  {
    if k == 0 {
      ItemsIff(r.answer);
      forall j | 0 <= j < |r.answer| ensures HasChain(g, r.answer[j], 0) {
        assert r.answer[j] in Items(r.answer);
        ChainZero(g, r.answer[j]);
      }
    } else {
      CutAt(g, r, levels, k - 1);
      OneLevel(g, r, levels, k - 1);
    }
  }

  lemma {:induction false} OneLevel(g: Graph, r: Outcome, levels: seq<seq<Item>>, k: nat)
    requires g.Valid() && IsAnswer(g, r) && AreLevels(g, levels) && k < |levels|
    requires Cut(g, r.answer, Start(levels, k), k)
    ensures Cut(g, r.answer, Start(levels, k + 1), k + 1)
    ensures PermutesLevel(r.answer, levels, k)
  {
    var a := Start(levels, k);
    var b := FirstDeep(g, r, k + 1);
    if b < a {
      ShorterChain(g, r.answer[b], k, k + 1);
    }
    var part := r.answer[a..b];
    SliceDistinct(r.answer, a, b);
    SegmentItems(g, r, a, b, k);
    assert Items(part) == Items(levels[k]);
    SameItemsSameBag(part, levels[k]);
    assert b == Start(levels, k + 1);
  }

  lemma {:induction false} SegmentItems(g: Graph, r: Outcome, a: nat, b: nat, k: nat)
    requires g.Valid() && IsAnswer(g, r) && a <= b
    requires Cut(g, r.answer, a, k) && Cut(g, r.answer, b, k + 1)
    ensures forall x :: x in Items(r.answer[a..b]) <==> AtDepth(g, x, k)
  {
    var part := r.answer[a..b];
    ItemsIff(part);
    ItemsIff(r.answer);
    forall x ensures x in Items(part) <==> AtDepth(g, x, k) {
      if x in part {
        var i :| 0 <= i < |part| && part[i] == x;
        assert x == r.answer[a + i];
      }
      if AtDepth(g, x, k) {
        NotBlocked(g, x, k);
        var j :| 0 <= j < |r.answer| && r.answer[j] == x;
        assert part[j - a] == x;
      }
    }
  }

  lemma {:induction false} NotBlocked(g: Graph, x: Item, k: nat)
    requires g.Valid() && AtDepth(g, x, k)
    ensures x in g.nodes - Blocked(g)
  {
    ShorterChain(g, x, 0, k);
    ChainZero(g, x);
    UnboundedIffBelowCycle(g, x);
  }

  lemma {:induction false} SliceDistinct<T>(s: seq<T>, a: nat, b: nat)
    requires a <= b <= |s| && Distinct(s)
    ensures Distinct(s[a..b])
  {
    DistinctIff(s);
    DistinctIff(s[a..b]);
  }

  // ---------------------------------------------------------------- which left over items have children

  /** From x a walk leads to a cycle. */
  ghost predicate LeadsToCycle(g: Graph, x: Item) {
    exists c, w :: LeadsInto(g, c, w, x)
  }

  ghost predicate LeadsInto(g: Graph, c: seq<Item>, w: seq<Item>, x: Item) {
    ClosedWalk(g, c) && IsWalk(g, w) && w[0] == x && w[|w| - 1] == c[0]
  }

  /** Whatever a cycle leads to leads to a cycle again. */
  ghost predicate NoWayOut(g: Graph) {
    forall x :: x in g.nodes && BelowCycle(g, x) ==> LeadsToCycle(g, x)
  }

  lemma {:induction false} WalkOn(g: Graph, w: seq<Item>, y: Item)
    requires g.Valid() && IsWalk(g, w) && (w[|w| - 1], y) in g.edges
    ensures IsWalk(g, w + [y])
  {
    var v := w + [y];
    forall i | 0 <= i < |v| - 1 ensures Step(g, v, i) {
      assert i < |w| - 1 ==> Step(g, w, i);
    }
  }

  lemma {:induction false} ChildIsBlocked(g: Graph, x: Item, y: Item)
    requires g.Valid() && BelowCycle(g, x) && (x, y) in g.edges
    ensures y in Blocked(g)
  {
    var c, w :| Leads(g, c, w, x);
    WalkOn(g, w, y);
    assert Leads(g, c, w + [y], y);
  }

  /** Where every blocked item has a child, one can go on for ever. */
  lemma {:induction false} LongWalkFrom(g: Graph, x: Item, n: nat) returns (w: seq<Item>)
    requires g.Valid() && x in Blocked(g) && forall y :: y in Blocked(g) ==> Successors(g.edges, y) != []
    ensures IsWalk(g, w) && |w| == n + 1 && w[0] == x && w[n] in Blocked(g)
  {
    if n == 0 {
      w := [x];
    } else {
      var v := LongWalkFrom(g, x, n - 1);
      var y := Successors(g.edges, v[n - 1])[0];
      SuccessorsAreEdges(g.edges, v[n - 1], y);
      ChildIsBlocked(g, v[n - 1], y);
      WalkOn(g, v, y);
      w := v + [y];
    }
  }

  lemma {:induction false} LongWalkLeads(g: Graph, w: seq<Item>)
    requires IsWalk(g, w) && |w| == |g.nodes| + 1
    ensures LeadsToCycle(g, w[0])
  {
    if Distinct(w) {
      DistinctBound(w, g.nodes);
    }
    DistinctIff(w);
    var i, j :| 0 <= i < j < |w| && w[i] == w[j];
    SubWalk(g, w, i, j + 1);
    SubWalk(g, w, 0, i + 1);
    assert LeadsInto(g, w[i..j + 1], w[..i + 1], w[0]);
  }

  lemma {:induction false} LeaderHasChild(g: Graph, x: Item)
    requires LeadsToCycle(g, x)
    ensures Successors(g.edges, x) != []
  {
    var c, w :| LeadsInto(g, c, w, x);
    if |w| > 1 {
      assert Step(g, w, 0);
      SuccessorsAreEdges(g.edges, x, w[1]);
    } else {
      assert Step(g, c, 0);
      SuccessorsAreEdges(g.edges, x, c[1]);
    }
  }

  /** Everything left over has a child exactly when everything a cycle leads to leads to a cycle. */
  lemma {:induction false} ChildrenLeftIff(g: Graph)
    requires g.Valid()
    ensures (forall x :: x in Blocked(g) ==> Successors(g.edges, x) != []) <==> NoWayOut(g)
  {
    if forall x :: x in Blocked(g) ==> Successors(g.edges, x) != [] {
      forall x | x in g.nodes && BelowCycle(g, x) ensures LeadsToCycle(g, x) {
        var w := LongWalkFrom(g, x, |g.nodes|);
        LongWalkLeads(g, w);
      }
    }
    if NoWayOut(g) {
      forall x | x in Blocked(g) ensures Successors(g.edges, x) != [] {
        LeaderHasChild(g, x);
      }
    }
  }

  /**
    The comment that everything left in num_parents has a child, said of the errors that the two
    sorts raise: children still lists every element that num_parents does exactly when everything
    a cycle leads to leads to a cycle.
   */
  lemma {:induction false} CommentHoldsIff(g: Graph, r: Outcome, l: LevelsOutcome)
    requires g.Valid() && IsAnswer(g, r) && AreDepthLevels(g, l)
    ensures r.CycleError? ==> (r.children.Keys == r.numParents.Keys <==> NoWayOut(g))
    ensures l.LevelsCycleError? && l.children == BlockedChildren(g) ==>
      (l.children.Keys == l.numParents.Keys <==> NoWayOut(g))
  {
    ChildrenLeftIff(g);
    assert BlockedCounts(g).Keys == Blocked(g);
    forall x | x in Blocked(g) ensures x in BlockedChildren(g) <==> Successors(g.edges, x) != [] {
    }
  }

  /** An input of topsort of which it does not hold: a cycle leads to c, which leads nowhere. */
  lemma {:induction false} LeftOverWithoutChildren(a: Item, b: Item, c: Item)
    requires c != a && c != b
    ensures var g := FromPairs([(a, b), (b, a), (b, c)]);
      Cyclic(g) && c in Blocked(g) && Successors(g.edges, c) == [] && !NoWayOut(g)
  {
    var pairs := [(a, b), (b, a), (b, c)];
    var g := FromPairs(pairs);
    assert pairs[0] == (a, b) && pairs[1] == (b, a) && pairs[2] == (b, c);
    assert {a, b, c} <= g.nodes;
    var loop, tail := [b, a, b], [b, c];
    assert Step(g, loop, 0) && Step(g, loop, 1) && Step(g, tail, 0);
    assert ClosedWalk(g, loop);
    assert Leads(g, loop, tail, c);
    assert pairs[..2] == [(a, b), (b, a)] && pairs[..2][..1] == [(a, b)];
    assert Successors(pairs, c) == Successors(pairs[..2], c) == Successors([(a, b)], c) == [];
    ChildrenLeftIff(g);
  }

  // ---------------------------------------------------------------- tables without a pair list

  /** Every children dictionary lists the children of some pair list, so topsort_levels_core covers it. */
  lemma {:induction false} TableHasPairs(table: map<Item, seq<Item>>) returns (pairs: seq<(Item, Item)>)
    ensures forall p :: Successors(pairs, p) == Listed(table, p)
    ensures forall p, x {:trigger (p, x) in pairs} :: (p, x) in pairs ==> p in table && x in table[p]
    decreases table.Keys
  {
    if table == map[] {
      pairs := [];
    } else {
      var p :| p in table;
      var rest := TableHasPairs(table - {p});
      pairs := AppendRow(rest, p, table[p]);
      forall q ensures Successors(pairs, q) == Listed(table, q) {
        assert Successors(rest, q) == Listed(table - {p}, q);
      }
      forall q, x | (q, x) in pairs ensures q in table && x in table[q] {
        SuccessorsAreEdges(pairs, q, x);
      }
    }
  }

  lemma {:induction false} AppendRow(pairs: seq<(Item, Item)>, p: Item, row: seq<Item>) returns (all: seq<(Item, Item)>)
    ensures forall q :: Successors(all, q) == Successors(pairs, q) + (if q == p then row else [])
  {
    if row == [] {
      all := pairs;
    } else {
      var n := |row| - 1;
      var most := AppendRow(pairs, p, row[..n]);
      all := most + [(p, row[n])];
      assert all[..|most|] == most;
      assert row[..n] + [row[n]] == row;
    }
  }
}
