/** All rearrangements of a list, by inserting its first item everywhere into those of the rest. */
module Permutations {
  import opened Sequences

  function Insert<T>(s: seq<T>, i: nat, x: T): seq<T>
    requires i <= |s|
  {
    s[..i] + [x] + s[i..]
  }

  /** x inserted into s at the first n positions. */
  ghost function Inserts<T>(s: seq<T>, x: T, n: nat): seq<seq<T>>
    requires n <= |s| + 1
  {
    if n == 0 then [] else Inserts(s, x, n - 1) + [Insert(s, n - 1, x)]
  }

  /** x inserted into every list at every position. */
  ghost function Spread<T>(subs: seq<seq<T>>, x: T): seq<seq<T>> {
    if subs == [] then [] else
    var last := subs[|subs| - 1];
    Spread(subs[..|subs| - 1], x) + Inserts(last, x, |last| + 1)
  }

  ghost function Perms<T>(s: seq<T>): seq<seq<T>> {
    if |s| <= 1 then [s] else Spread(Perms(s[1..]), s[0])
  }

  function Factorial(n: nat): nat {
    if n == 0 then 1 else n * Factorial(n - 1)
  }

  // ---------------------------------------------------------------- the program

  /**
    Of a list of n items, n! rearrangements are returned: each of them is one, every one is
    among them, and when the items differ no two of them are equal.
   */
  method Permutations<T>(inputList: seq<T>) returns (outLists: seq<seq<T>>)
    ensures |outLists| == Factorial(|inputList|)
    ensures forall p :: p in outLists <==> multiset(p) == multiset(inputList)
    ensures NoRepeats(inputList) ==> NoRepeats(outLists)
  {
    outLists := PermutationLists(inputList);
    PermsCount(inputList);
    forall p ensures p in outLists <==> multiset(p) == multiset(inputList) {
      PermsComplete(inputList, p);
    }
    if NoRepeats(inputList) {
      PermsDiffer(inputList);
    }
  }

  method PermutationLists<T>(inputList: seq<T>) returns (outLists: seq<seq<T>>)
    ensures outLists == Perms(inputList)
    decreases inputList
  {
    outLists := [];
    if |inputList| > 1 {
      var item := inputList[0];
      var subLists := PermutationLists(inputList[1..]);
      PermsLength(inputList[1..]);
      for k := 0 to |subLists|
        invariant outLists == Spread(subLists[..k], item)
      {
        SpreadNext(subLists, item, k);
        outLists := InsertEverywhere(outLists, subLists[k], item);
      }
      assert subLists[..|subLists|] == subLists;
    } else {
      outLists := [inputList];
    }
  }

  /** The item inserted at every position of one list. */
  method InsertEverywhere<T>(before: seq<seq<T>>, subList: seq<T>, item: T) returns (outLists: seq<seq<T>>)
    ensures outLists == before + Inserts(subList, item, |subList| + 1)
  {
    outLists := before;
    for i := 0 to |subList| + 1
      invariant outLists == before + Inserts(subList, item, i)
    {
      var newList := Insert(subList, i, item);
      outLists := outLists + [newList];
    }
  }

  lemma {:induction false} SpreadNext<T>(subs: seq<seq<T>>, x: T, k: nat)
    requires k < |subs|
    ensures Spread(subs[..k + 1], x) == Spread(subs[..k], x) + Inserts(subs[k], x, |subs[k]| + 1)
  {
    assert subs[..k + 1][..k] == subs[..k];
  }

  // ---------------------------------------------------------------- lengths

  lemma {:induction false} InsertsAt<T>(s: seq<T>, x: T, n: nat)
    requires n <= |s| + 1
    ensures |Inserts(s, x, n)| == n
    ensures forall i :: 0 <= i < n ==> Inserts(s, x, n)[i] == Insert(s, i, x)
  {
    if n > 0 { InsertsAt(s, x, n - 1); }
  }

  ghost predicate AllOfLength<T>(ls: seq<seq<T>>, n: nat) {
    forall i :: 0 <= i < |ls| ==> |ls[i]| == n
  }

  lemma {:induction false} SpreadLength<T>(subs: seq<seq<T>>, x: T, n: nat)
    requires AllOfLength(subs, n)
    ensures AllOfLength(Spread(subs, x), n + 1)
    ensures |Spread(subs, x)| == |subs| * (n + 1)
  {
    if subs != [] {
      var last := subs[|subs| - 1];
      SpreadLength(subs[..|subs| - 1], x, n);
      InsertsAt(last, x, n + 1);
      assert |subs| * (n + 1) == (|subs| - 1) * (n + 1) + (n + 1);
    }
  }

  lemma {:induction false} PermsLength<T>(s: seq<T>)
    ensures AllOfLength(Perms(s), |s|)
    ensures |Perms(s)| == Factorial(|s|)
    decreases s
  {
    if |s| > 1 {
      PermsLength(s[1..]);
      SpreadLength(Perms(s[1..]), s[0], |s| - 1);
    } else {
      assert Factorial(0) == 1 && Factorial(1) == 1;
    }
  }

  lemma {:induction false} PermsCount<T>(s: seq<T>)
    ensures |Perms(s)| == Factorial(|s|)
  {
    PermsLength(s);
  }

  // ---------------------------------------------------------------- exactly the rearrangements

  lemma {:induction false} InSpread<T>(subs: seq<seq<T>>, x: T, p: seq<T>)
    ensures p in Spread(subs, x) <==> exists k, i :: 0 <= k < |subs| && 0 <= i <= |subs[k]| && p == Insert(subs[k], i, x)
  {
    if subs != [] {
      var n := |subs| - 1;
      InSpread(subs[..n], x, p);
      InsertsAt(subs[n], x, |subs[n]| + 1);
      if p in Spread(subs[..n], x) {
        var k, i :| 0 <= k < n && 0 <= i <= |subs[..n][k]| && p == Insert(subs[..n][k], i, x);
        assert subs[k] == subs[..n][k];
      }
      if p in Inserts(subs[n], x, |subs[n]| + 1) {
        var i :| 0 <= i < |subs[n]| + 1 && p == Inserts(subs[n], x, |subs[n]| + 1)[i];
        assert p == Insert(subs[n], i, x);
      }
      if k, i :| 0 <= k < |subs| && 0 <= i <= |subs[k]| && p == Insert(subs[k], i, x) {
        if k < n {
          assert subs[k] == subs[..n][k];
        } else {
          assert p == Inserts(subs[n], x, |subs[n]| + 1)[i];
        }
      }
    }
  }

  lemma {:induction false} InsertBag<T>(s: seq<T>, i: nat, x: T)
    requires i <= |s|
    ensures multiset(Insert(s, i, x)) == multiset(s) + multiset{x}
  {
    assert s == s[..i] + s[i..];
  }

  lemma {:induction false} HeadBag<T>(s: seq<T>)
    requires s != []
    ensures multiset(s) == multiset(s[1..]) + multiset{s[0]}
  {
    assert s == [s[0]] + s[1..];
  }

  lemma {:induction false} TakeOut<T>(p: seq<T>, x: T) returns (i: nat, rest: seq<T>)
    requires x in p
    ensures i <= |rest| && p == Insert(rest, i, x) && multiset(p) == multiset(rest) + multiset{x}
  {
    i :| 0 <= i < |p| && p[i] == x;
    rest := p[..i] + p[i + 1..];
    assert p == Insert(rest, i, x);
    InsertBag(rest, i, x);
  }

  lemma {:induction false} SpreadBag<T>(s: seq<T>, subs: seq<seq<T>>, k: nat, i: nat)
    requires s != [] && k < |subs| && i <= |subs[k]| && multiset(subs[k]) == multiset(s[1..])
    ensures multiset(Insert(subs[k], i, s[0])) == multiset(s)
  {
    HeadBag(s);
    InsertBag(subs[k], i, s[0]);
  }

  lemma {:induction false} TakeHead<T>(s: seq<T>, p: seq<T>) returns (i: nat, rest: seq<T>)
    requires s != [] && multiset(p) == multiset(s)
    ensures i <= |rest| && p == Insert(rest, i, s[0]) && multiset(rest) == multiset(s[1..])
  {
    assert s[0] in multiset(p);
    i, rest := TakeOut(p, s[0]);
    HeadBag(s);
    assert multiset(rest) == multiset(p) - multiset{s[0]};
    assert multiset(s[1..]) == multiset(s) - multiset{s[0]};
  }

  lemma {:induction false} PermsComplete<T>(s: seq<T>, p: seq<T>)
    ensures p in Perms(s) <==> multiset(p) == multiset(s)
    decreases s
  {
    if |s| > 1 {
      var subs := Perms(s[1..]);
      InSpread(subs, s[0], p);
      if p in Perms(s) {
        var k, i :| 0 <= k < |subs| && 0 <= i <= |subs[k]| && p == Insert(subs[k], i, s[0]);
        PermsComplete(s[1..], subs[k]);
        SpreadBag(s, subs, k, i);
      }
      if multiset(p) == multiset(s) {
        var i, rest := TakeHead(s, p);
        PermsComplete(s[1..], rest);
        var k :| 0 <= k < |subs| && subs[k] == rest;
        assert p == Insert(subs[k], i, s[0]);
      }
    } else {
      ShortBag(s, p);
    }
  }

  lemma {:induction false} ShortBag<T>(s: seq<T>, p: seq<T>)
    requires |s| <= 1
    ensures multiset(p) == multiset(s) <==> p == s
  {
    if multiset(p) == multiset(s) {
      assert |p| == |multiset(p)| == |multiset(s)| == |s|;
      if |s| == 1 {
        assert p[0] in multiset(p);
        assert s == [s[0]];
      }
    }
  }

  // ---------------------------------------------------------------- no two alike

  lemma {:induction false} OnlyAt<T>(a: seq<T>, i: nat, x: T, k: nat)
    requires i <= |a| && x !in a && k <= |a|
    ensures Insert(a, i, x)[k] == x <==> k == i
  {
  }

  lemma {:induction false} InsertInjective<T>(a: seq<T>, i: nat, b: seq<T>, j: nat, x: T)
    requires i <= |a| && j <= |b| && |a| == |b| && x !in a && x !in b
    requires Insert(a, i, x) == Insert(b, j, x)
    ensures i == j && a == b
  {
    OnlyAt(a, i, x, i);
    OnlyAt(b, j, x, i);
    var p := Insert(a, i, x);
    assert a == p[..i] + p[i + 1..];
    assert b == p[..i] + p[i + 1..];
  }

  lemma {:induction false} SpreadDiffer<T>(subs: seq<seq<T>>, x: T, n: nat)
    requires AllOfLength(subs, n) && NoRepeats(subs) && forall k :: 0 <= k < |subs| ==> x !in subs[k]
    ensures NoRepeats(Spread(subs, x))
  {
    if subs != [] {
      var m := |subs| - 1;
      var last := subs[m];
      SpreadDiffer(subs[..m], x, n);
      var a, b := Spread(subs[..m], x), Inserts(last, x, n + 1);
      InsertsAt(last, x, n + 1);
      forall i, j | 0 <= i < j < |b| ensures b[i] != b[j] {
        if b[i] == b[j] {
          InsertInjective(last, i, last, j, x);
        }
      }
      forall p | p in a ensures p !in b {
        InSpread(subs[..m], x, p);
        var k, i :| 0 <= k < m && 0 <= i <= |subs[..m][k]| && p == Insert(subs[..m][k], i, x);
        if p in b {
          var j :| 0 <= j < |b| && p == b[j];
          InsertInjective(subs[k], i, last, j, x);
        }
      }
      JoinNoRepeats(a, b);
    }
  }

  lemma {:induction false} PermsDiffer<T>(s: seq<T>)
    requires NoRepeats(s)
    ensures NoRepeats(Perms(s))
    decreases s
  {
    if |s| > 1 {
      var subs := Perms(s[1..]);
      PermsDiffer(s[1..]);
      PermsLength(s[1..]);
      forall k | 0 <= k < |subs| ensures s[0] !in subs[k] {
        PermsComplete(s[1..], subs[k]);
        assert forall i :: 0 <= i < |s| - 1 ==> s[1..][i] == s[i + 1];
        assert s[0] in subs[k] <==> s[0] in multiset(subs[k]);
        assert s[0] in s[1..] <==> s[0] in multiset(s[1..]);
      }
      SpreadDiffer(subs, s[0], |s| - 1);
    }
  }
}
