/** Rotations of sequences. */
module Rotation {

  ghost predicate RotatedBy<T>(a: seq<T>, b: seq<T>, k: nat) {
    k < |a| && a[k..] + a[..k] == b
  }

  /** b starts somewhere in a, runs to its end, and goes on from its beginning. */
  ghost predicate Rotated<T>(a: seq<T>, b: seq<T>) {
    exists k: nat :: RotatedBy(a, b, k)
  }

  lemma {:induction false} WindowIsRotation<T>(a: seq<T>, k: nat)
    requires k < |a|
    ensures (a + a)[k..k + |a|] == a[k..] + a[..k]
  {
  }

  /** Looking for b in a followed by itself, wherever the head of b occurs in a. */
  method IsRotated<T(==)>(seq1: seq<T>, seq2: seq<T>) returns (r: bool)
    requires |seq1| == |seq2| ==> seq2 != []
    ensures r <==> Rotated(seq1, seq2)
  {
    if |seq1| != |seq2| {
      return false;
    }
    var startIndexes: seq<nat> := [];
    var headItem := seq2[0];
    for index1 := 0 to |seq1|
      invariant forall i :: 0 <= i < |startIndexes| ==> startIndexes[i] < |seq1|
      invariant forall k: nat :: k in startIndexes <==> k < index1 && seq1[k] == headItem
    {
      if seq1[index1] == headItem {
        startIndexes := startIndexes + [index1];
      }
    }
    var doubleSeq1 := seq1 + seq1;
    for i := 0 to |startIndexes|
      invariant forall k: nat :: k in startIndexes[..i] ==> !RotatedBy(seq1, seq2, k)
    {
      var index1 := startIndexes[i];
      WindowIsRotation(seq1, index1);
      if doubleSeq1[index1..index1 + |seq1|] == seq2 {
        assert RotatedBy(seq1, seq2, index1);
        return true;
      }
      assert startIndexes[..i + 1] == startIndexes[..i] + [index1];
    }
    assert startIndexes[..|startIndexes|] == startIndexes;
    forall k: nat ensures !RotatedBy(seq1, seq2, k) {
      assert k < |seq1| ==> (seq1[k..] + seq1[..k])[0] == seq1[k];
    }
    return false;
  }

  lemma {:induction false} RotatedSame<T>(a: seq<T>)
    requires a != []
    ensures Rotated(a, a)
  {
    assert a[0..] + a[..0] == a;
    assert RotatedBy(a, a, 0);
  }

  lemma {:induction false} RotatedBack<T>(a: seq<T>, b: seq<T>)
    requires Rotated(a, b)
    ensures Rotated(b, a)
  {
    var k: nat :| RotatedBy(a, b, k);
    if k == 0 {
      assert a == b;
      RotatedSame(a);
    } else {
      var n := |a| - k;
      assert b[n..] == a[..k] && b[..n] == a[k..];
      assert RotatedBy(b, a, n);
    }
  }

  lemma {:induction false} RotatedAt<T>(a: seq<T>, b: seq<T>, k: nat, i: nat)
    requires RotatedBy(a, b, k) && i < |a|
    ensures |b| == |a| && b[i] == if i + k < |a| then a[i + k] else a[i + k - |a|]
  {
  }

  lemma {:induction false} RotatedTwiceAt<T>(a: seq<T>, b: seq<T>, c: seq<T>, j: nat, k: nat, i: nat)
    requires RotatedBy(a, b, j) && RotatedBy(b, c, k) && i < |a|
    ensures |c| == |a|
    ensures var m := if j + k < |a| then j + k else j + k - |a|;
      c[i] == if i + m < |a| then a[i + m] else a[i + m - |a|]
  {
    RotatedAt(a, b, j, 0);
    RotatedAt(b, c, k, i);
    RotatedAt(a, b, j, if i + k < |a| then i + k else i + k - |a|);
  }

  lemma {:induction false} RotatedTwice<T>(a: seq<T>, b: seq<T>, c: seq<T>)
    requires Rotated(a, b) && Rotated(b, c)
    ensures Rotated(a, c)
  {
    var j: nat :| RotatedBy(a, b, j);
    var k: nat :| RotatedBy(b, c, k);
    RotatedTwiceAt(a, b, c, j, k, 0);
    var m := if j + k < |a| then j + k else j + k - |a|;
    var d := a[m..] + a[..m];
    assert RotatedBy(a, d, m);
    forall i | 0 <= i < |a| ensures c[i] == d[i] {
      RotatedTwiceAt(a, b, c, j, k, i);
      RotatedAt(a, d, m, i);
    }
    assert d == c;
  }
}
