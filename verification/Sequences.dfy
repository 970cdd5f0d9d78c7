/** Sequences without repetitions, the sets of their items, and how often an item occurs. */
module Sequences {

  ghost function Items<T>(s: seq<T>): set<T> {
    if s == [] then {} else Items(s[..|s| - 1]) + {s[|s| - 1]}
  }

  /** No element occurs twice. */
  ghost predicate Distinct<T>(s: seq<T>) {
    s != [] ==> s[|s| - 1] !in Items(s[..|s| - 1]) && Distinct(s[..|s| - 1])
  }

  /** The same, said with indices. */
  ghost predicate NoRepeats<T>(s: seq<T>) {
    forall i, j :: 0 <= i < j < |s| ==> s[i] != s[j]
  }

  ghost predicate NonDecreasing(s: seq<int>) {
    |s| >= 2 ==> s[|s| - 2] <= s[|s| - 1] && NonDecreasing(s[..|s| - 1])
  }

  lemma {:induction false} ItemsIff<T>(s: seq<T>)
    ensures forall x :: x in Items(s) <==> x in s
  {
    if s != [] {
      var n := |s| - 1;
      ItemsIff(s[..n]);
      assert s == s[..n] + [s[n]];
    }
  }

  lemma {:induction false} DistinctIff<T>(s: seq<T>)
    ensures Distinct(s) <==> NoRepeats(s)
  {
    if s != [] {
      var n := |s| - 1;
      var init := s[..n];
      DistinctIff(init);
      ItemsIff(init);
      assert s == init + [s[n]];
    }
  }

  lemma {:induction false} NonDecreasingIff(s: seq<int>)
    ensures NonDecreasing(s) <==> forall i, j :: 0 <= i <= j < |s| ==> s[i] <= s[j]
  {
    if |s| >= 2 {
      NonDecreasingIff(s[..|s| - 1]);
    }
  }

  lemma {:induction false} AppendDistinct<T>(s: seq<T>, x: T)
    requires Distinct(s) && x !in Items(s)
    ensures Distinct(s + [x]) && Items(s + [x]) == Items(s) + {x}
  {
    assert (s + [x])[..|s|] == s;
  }

  /** How often x occurs in s. */
  ghost function Occurrences<T>(s: seq<T>, x: T): nat {
    if s == [] then 0 else Occurrences(s[..|s| - 1], x) + (if s[|s| - 1] == x then 1 else 0)
  }

  lemma {:induction false} OccurrencesUpTo<T>(s: seq<T>, n: nat, x: T)
    requires n <= |s|
    ensures Occurrences(s[..n], x) <= Occurrences(s, x)
    ensures n < |s| ==> Occurrences(s[..n + 1], x) == Occurrences(s[..n], x) + (if s[n] == x then 1 else 0)
    decreases |s| - n
  {
    if n < |s| {
      OccurrencesUpTo(s, n + 1, x);
      assert s[..n + 1][..n] == s[..n];
    } else {
      assert s[..n] == s;
    }
  }

  lemma {:induction false} AppendOccurrences<T>(s: seq<T>, y: T, x: T)
    ensures Occurrences(s + [y], x) == Occurrences(s, x) + (if y == x then 1 else 0)
    ensures Occurrences(s + [], x) == Occurrences(s, x)
  {
    assert (s + [y])[..|s|] == s;
    assert s + [] == s;
  }

  lemma {:induction false} DistinctBound<T>(s: seq<T>, bound: set<T>)
    requires Distinct(s) && (forall i :: 0 <= i < |s| ==> s[i] in bound)
    ensures |s| <= |bound|
  {
    if s != [] {
      ItemsIff(s[..|s| - 1]);
      DistinctBound(s[..|s| - 1], bound - {s[|s| - 1]});
    }
  }

  lemma {:induction false} SameItemsSameBag<T>(a: seq<T>, b: seq<T>)
    requires Distinct(a) && Distinct(b) && Items(a) == Items(b)
    ensures multiset(a) == multiset(b) && |a| == |b|
  {
    DistinctBag(a);
    DistinctBag(b);
    ItemsIff(a);
    ItemsIff(b);
    assert multiset(a) == multiset(b) by {
      forall x ensures multiset(a)[x] == multiset(b)[x] {
        assert x in a <==> x in Items(a);
        assert x in b <==> x in Items(b);
      }
    }
    assert |multiset(a)| == |a| && |multiset(b)| == |b|;
  }

  lemma {:induction false} DistinctBag<T>(s: seq<T>)
    requires Distinct(s)
    ensures forall x :: multiset(s)[x] == if x in s then 1 else 0
  {
    if s != [] {
      var init := s[..|s| - 1];
      DistinctBag(init);
      ItemsIff(init);
      assert s == init + [s[|s| - 1]];
    }
  }

  lemma {:induction false} JoinNoRepeats<T>(a: seq<T>, b: seq<T>)
    requires NoRepeats(a) && NoRepeats(b) && forall x :: x in a ==> x !in b
    ensures NoRepeats(a + b)
  {
    var c := a + b;
    forall i, j | 0 <= i < j < |c| ensures c[i] != c[j] {
      if i < |a| <= j {
        assert c[i] in a && c[j] in b;
      }
    }
  }
}
