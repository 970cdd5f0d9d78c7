/** Sorting a container and keeping its unique items. */
module Containers {

  ghost predicate TotalOrder<T(!new)>(less: (T, T) -> bool) {
    && (forall a :: !less(a, a))
    && (forall a, b, c :: less(a, b) && less(b, c) ==> less(a, c))
    && (forall a, b :: less(a, b) || a == b || less(b, a))
  }

  ghost predicate Ascending<T>(s: seq<T>, less: (T, T) -> bool) {
    forall i, j :: 0 <= i < j < |s| ==> !less(s[j], s[i])
  }

  ghost predicate StrictlyAscending<T>(s: seq<T>, less: (T, T) -> bool) {
    forall i, j :: 0 <= i < j < |s| ==> less(s[i], s[j])
  }

  function Insert<T>(s: seq<T>, x: T, less: (T, T) -> bool): seq<T> {
    if s == [] then [x]
    else if less(x, s[|s| - 1]) then Insert(s[..|s| - 1], x, less) + [s[|s| - 1]]
    else s + [x]
  }

  function Sort<T>(s: seq<T>, less: (T, T) -> bool): seq<T> {
    if s == [] then [] else Insert(Sort(s[..|s| - 1], less), s[|s| - 1], less)
  }

  lemma {:induction false} InsertItems<T>(s: seq<T>, x: T, less: (T, T) -> bool)
    ensures forall y :: y in Insert(s, x, less) <==> y == x || y in s
  {
    if s != [] && less(x, s[|s| - 1]) {
      InsertItems(s[..|s| - 1], x, less);
      assert s == s[..|s| - 1] + [s[|s| - 1]];
    }
  }

  lemma {:induction false} InsertAscending<T(!new)>(s: seq<T>, x: T, less: (T, T) -> bool)
    requires TotalOrder(less) && Ascending(s, less)
    ensures Ascending(Insert(s, x, less), less)
  {
    if s != [] && less(x, s[|s| - 1]) {
      var n := |s| - 1;
      InsertAscending(s[..n], x, less);
      InsertItems(s[..n], x, less);
      var t := Insert(s[..n], x, less);
      forall i | 0 <= i < |t| ensures !less(s[n], t[i]) {
        assert t[i] in t;
      }
    }
  }

  lemma {:induction false} SortSorts<T(!new)>(s: seq<T>, less: (T, T) -> bool)
    requires TotalOrder(less)
    ensures Ascending(Sort(s, less), less)
    ensures forall y :: y in Sort(s, less) <==> y in s
  {
    if s != [] {
      var n := |s| - 1;
      SortSorts(s[..n], less);
      InsertAscending(Sort(s[..n], less), s[n], less);
      InsertItems(Sort(s[..n], less), s[n], less);
      assert s == s[..n] + [s[n]];
    }
  }

  /** The container comes by value: what is returned is what becomes of the local copy. */
  method Uniquefy<T(==, !new)>(t0: seq<T>, less: (T, T) -> bool) returns (t: seq<T>)
    requires TotalOrder(less)
    ensures StrictlyAscending(t, less) && forall y :: y in t <==> y in t0
  {
    var sorted := Sort(t0, less);
    SortSorts(t0, less);
    t := [];
    for i := 0 to |sorted|
      invariant StrictlyAscending(t, less) && (forall y :: y in t <==> y in sorted[..i])
      invariant if i == 0 then t == [] else t != [] && t[|t| - 1] == sorted[i - 1]
    {
      assert sorted[..i + 1] == sorted[..i] + [sorted[i]];
      if t == [] || t[|t| - 1] != sorted[i] {
        assert i > 0 ==> less(sorted[i - 1], sorted[i]);
        t := t + [sorted[i]];
      }
    }
    assert sorted[..|sorted|] == sorted;
  }
}
