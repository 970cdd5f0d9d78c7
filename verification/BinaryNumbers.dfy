/** Binary numerals: converting to and from fixed-width strings, and counting through all of them. */
module BinaryNumbers {

  datatype Result<T> = Ok(value: T) | ValueError

  function Pow2(n: nat): nat {
    if n == 0 then 1 else 2 * Pow2(n - 1)
  }

  predicate IsBinary(s: string) {
    forall i :: 0 <= i < |s| ==> s[i] == '0' || s[i] == '1'
  }

  function Bit(c: char): nat {
    if c == '1' then 1 else 0
  }

  /** The number a string of binary digits denotes, most significant digit first. */
  function BinVal(s: string): nat {
    if s == "" then 0 else 2 * BinVal(s[..|s| - 1]) + Bit(s[|s| - 1])
  }

  // ---------------------------------------------------------------- int2bin

  /** The digits of hex(i): at least one, most significant first. */
  function HexDigits(i: nat): (ds: seq<nat>)
    ensures forall k :: 0 <= k < |ds| ==> ds[k] < 16
  {
    if i < 16 then [i] else HexDigits(i / 16) + [i % 16]
  }

  /** The table that maps a hex digit to four binary ones. */
  function Nibble(d: nat): string
    requires d < 16
  {
    ["0000", "0001", "0010", "0011", "0100", "0101", "0110", "0111",
     "1000", "1001", "1010", "1011", "1100", "1101", "1110", "1111"][d]
  }

  function Nibbles(ds: seq<nat>): string
    requires forall k :: 0 <= k < |ds| ==> ds[k] < 16
  {
    if ds == [] then "" else Nibbles(ds[..|ds| - 1]) + Nibble(ds[|ds| - 1])
  }

  function Zeros(n: nat): string {
    if n == 0 then "" else Zeros(n - 1) + "0"
  }

  /** How many digits the slice [:-n] leaves; the slice [:-0] is empty and [-0:] is everything. */
  function CutAt(length: nat, n: nat): nat {
    if n == 0 || n > length then 0 else length - n
  }

  function Int2Bin(i: nat, n: nat): Result<string> {
    var all := Nibbles(HexDigits(i));
    var cut := CutAt(|all|, n);
    if '1' in all[..cut] then ValueError else
    var kept := all[cut..];
    Ok(Zeros(if n < |kept| then 0 else n - |kept|) + kept)
  }

  lemma {:induction false} NibbleVal(d: nat)
    requires d < 16
    ensures |Nibble(d)| == 4 && IsBinary(Nibble(d)) && BinVal(Nibble(d)) == d
  {
    var s := Nibble(d);
    assert s[..3][..2] == s[..2] && s[..2][..1] == s[..1] && s[..1][..0] == "";
    assert BinVal(s[..1]) == Bit(s[0]);
    assert BinVal(s[..2]) == 2 * Bit(s[0]) + Bit(s[1]);
    assert BinVal(s[..3]) == 4 * Bit(s[0]) + 2 * Bit(s[1]) + Bit(s[2]);
  }

  /** x with n zero digits behind it. */
  ghost function Shifted(x: nat, n: nat): nat {
    if n == 0 then x else 2 * Shifted(x, n - 1)
  }

  lemma {:induction false} BinValAppend(a: string, b: string)
    ensures BinVal(a + b) == Shifted(BinVal(a), |b|) + BinVal(b)
  {
    if b == "" {
      assert a + b == a;
    } else {
      var n := |b| - 1;
      BinValAppend(a, b[..n]);
      assert (a + b)[..|a| + n] == a + b[..n];
    }
  }

  lemma {:induction false} ShiftedBound(x: nat, n: nat)
    ensures x == 0 ==> Shifted(x, n) == 0
    ensures x > 0 ==> Shifted(x, n) >= Pow2(n)
    ensures x == 1 ==> Shifted(x, n) == Pow2(n)
  {
    if n > 0 { ShiftedBound(x, n - 1); }
  }

  lemma {:induction false} BinValBound(s: string)
    ensures BinVal(s) < Pow2(|s|)
  {
    if s != "" { BinValBound(s[..|s| - 1]); }
  }

  /** No digit is 1 exactly when the value is zero. */
  lemma {:induction false} BinValZero(s: string)
    ensures '1' !in s <==> BinVal(s) == 0
  {
    if s != "" {
      var n := |s| - 1;
      BinValZero(s[..n]);
      assert s == s[..n] + [s[n]];
    }
  }

  lemma {:induction false} NibblesVal(i: nat)
    ensures IsBinary(Nibbles(HexDigits(i))) && BinVal(Nibbles(HexDigits(i))) == i
  {
    if i < 16 {
      NibblesSnoc([], i);
    } else {
      NibblesVal(i / 16);
      NibblesSnoc(HexDigits(i / 16), i % 16);
    }
  }

  /** One more hex digit: four more binary ones, and sixteen times the value and the digit. */
  lemma {:induction false} NibblesSnoc(ds: seq<nat>, d: nat)
    requires d < 16 && forall k :: 0 <= k < |ds| ==> ds[k] < 16
    requires IsBinary(Nibbles(ds))
    ensures IsBinary(Nibbles(ds + [d])) && BinVal(Nibbles(ds + [d])) == 16 * BinVal(Nibbles(ds)) + d
  {
    assert (ds + [d])[..|ds|] == ds;
    NibbleVal(d);
    BinValAppend(Nibbles(ds), Nibble(d));
    Sixteen(BinVal(Nibbles(ds)));
  }

  lemma {:induction false} Sixteen(x: nat)
    ensures Shifted(x, 4) == 16 * x
  {
    assert Shifted(x, 1) == 2 * x;
    assert Shifted(x, 2) == 4 * x;
    assert Shifted(x, 3) == 8 * x;
  }

  lemma {:induction false} ZerosVal(n: nat)
    ensures |Zeros(n)| == n && IsBinary(Zeros(n)) && BinVal(Zeros(n)) == 0
  {
    if n > 0 {
      ZerosVal(n - 1);
      assert Zeros(n)[..n - 1] == Zeros(n - 1);
    }
  }

  lemma {:induction false} Pow2Grows(m: nat, n: nat)
    requires m <= n
    ensures 0 < Pow2(m) <= Pow2(n)
  {
    if m < n { Pow2Grows(m, n - 1); }
    else if n > 0 { Pow2Grows(m - 1, n - 1); }
  }

  /**
    With at least one digit asked for, the conversion fails exactly when the number does not fit,
    and otherwise gives the n-digit numeral of the number.
   */
  lemma {:induction false} Int2BinCorrect(i: nat, n: nat)
    requires n > 0
    ensures Int2Bin(i, n).Ok? <==> i < Pow2(n)
    ensures Int2Bin(i, n).Ok? ==>
      var s := Int2Bin(i, n).value; |s| == n && IsBinary(s) && BinVal(s) == i
  {
    var all := Nibbles(HexDigits(i));
    NibblesVal(i);
    var cut := CutAt(|all|, n);
    CutVal(all, cut);
    PaddedVal(all[cut..], n);
  }

  /** Cutting digits off the front keeps the value unless a 1 is among them. */
  lemma {:induction false} CutVal(all: string, cut: nat)
    requires cut <= |all|
    ensures '1' !in all[..cut] ==> BinVal(all[cut..]) == BinVal(all)
    ensures '1' in all[..cut] ==> BinVal(all) >= Pow2(|all| - cut)
  {
    var dropped, kept := all[..cut], all[cut..];
    assert dropped + kept == all;
    BinValAppend(dropped, kept);
    BinValZero(dropped);
    ShiftedBound(BinVal(dropped), |kept|);
  }

  /** Padding with zeros keeps the value, and what fits in n digits is below Pow2(n). */
  lemma {:induction false} PaddedVal(kept: string, n: nat)
    requires IsBinary(kept) && |kept| <= n
    ensures var s := Zeros(n - |kept|) + kept;
      |s| == n && IsBinary(s) && BinVal(s) == BinVal(kept) < Pow2(n)
  {
    ZerosVal(n - |kept|);
    BinValAppend(Zeros(n - |kept|), kept);
    ShiftedBound(0, |kept|);
    BinValBound(kept);
    Pow2Grows(|kept|, n);
  }

  /** A width of 0 is no width: the slices then drop nothing, and every number is given in full. */
  lemma {:induction false} Int2BinNoWidth(i: nat)
    ensures Int2Bin(i, 0).Ok? && IsBinary(Int2Bin(i, 0).value) && BinVal(Int2Bin(i, 0).value) == i
  {
    NibblesVal(i);
    var all := Nibbles(HexDigits(i));
    assert all[..0] == "" && all[0..] == all && "" + all == all;
  }

  // ---------------------------------------------------------------- bin2int

  /** int(s, 2), on strings of binary digits; the empty string is an error. */
  function Bin2Int(s: string): Result<nat>
    requires IsBinary(s)
  {
    if s == "" then ValueError else Ok(BinVal(s))
  }

  /** Converting back what was converted. */
  lemma {:induction false} Bin2IntOfInt2Bin(i: nat, n: nat)
    requires n > 0 && i < Pow2(n)
    ensures Int2Bin(i, n).Ok? && IsBinary(Int2Bin(i, n).value)
    ensures Bin2Int(Int2Bin(i, n).value) == Ok(i)
  {
    Int2BinCorrect(i, n);
  }

  /** A numeral is determined by its length and value. */
  lemma {:induction false} NumeralUnique(a: string, b: string)
    requires IsBinary(a) && IsBinary(b) && |a| == |b| && BinVal(a) == BinVal(b)
    ensures a == b
  {
    if a != "" {
      var n := |a| - 1;
      NumeralUnique(a[..n], b[..n]);
      assert a == a[..n] + [a[n]] && b == b[..n] + [b[n]];
    }
  }

  /** And the other way round. */
  lemma {:induction false} Int2BinOfBin2Int(s: string)
    requires IsBinary(s) && s != ""
    ensures Bin2Int(s).Ok? && Int2Bin(Bin2Int(s).value, |s|) == Ok(s)
  {
    BinValBound(s);
    Int2BinCorrect(BinVal(s), |s|);
    NumeralUnique(Int2Bin(BinVal(s), |s|).value, s);
  }

  // ---------------------------------------------------------------- binary_range

  function Reversed(v: string): string {
    if v == "" then "" else [v[|v| - 1]] + Reversed(v[..|v| - 1])
  }

  /** What a digit stands for at position i, or a carry into it. */
  ghost function Weight(one: bool, i: nat): nat {
    if one then Pow2(i) else 0
  }

  /** The number that digits denote when the least significant comes first. */
  ghost function LowVal(v: string): nat {
    if v == "" then 0 else LowVal(v[..|v| - 1]) + Weight(v[|v| - 1] == '1', |v| - 1)
  }

  lemma {:induction false} ReversedVal(v: string)
    requires IsBinary(v)
    ensures |Reversed(v)| == |v| && IsBinary(Reversed(v)) && BinVal(Reversed(v)) == LowVal(v)
  {
    if v != "" {
      var n := |v| - 1;
      ReversedVal(v[..n]);
      BinValAppend([v[n]], Reversed(v[..n]));
      assert [v[n]][..0] == "";
      assert BinVal([v[n]]) == Bit(v[n]);
      ShiftedBound(Bit(v[n]), n);
    }
  }

  lemma {:induction false} LowValBound(v: string)
    ensures LowVal(v) < Pow2(|v|)
  {
    if v != "" { LowValBound(v[..|v| - 1]); }
  }

  /** Changing one digit changes the value by what the digit stands for. */
  lemma {:induction false} LowValUpdate(v: string, i: nat, c: char)
    requires i < |v|
    ensures LowVal(v[i := c]) == LowVal(v) - Weight(v[i] == '1', i) + Weight(c == '1', i)
  {
    var n := |v| - 1;
    var w := v[i := c];
    if i < n {
      LowValUpdate(v[..n], i, c);
      assert w[..n] == v[..n][i := c];
    } else {
      assert w[..n] == v[..n];
    }
  }

  lemma {:induction false} LowZeros(v: string)
    requires forall i :: 0 <= i < |v| ==> v[i] == '0'
    ensures LowVal(v) == 0
  {
    if v != "" { LowZeros(v[..|v| - 1]); }
  }

  /** The ripple carry: v goes up by one, and the carry out is set when it wraps round to zero. */
  method Increment(v: array<char>, toggle: array<nat>)
    requires toggle.Length == v.Length + 1 && IsBinary(v[..])
    requires forall i :: 0 <= i < toggle.Length ==> toggle[i] == if i == 0 then 1 else 0
    modifies v, toggle
    ensures IsBinary(v[..]) && toggle[v.Length] <= 1
    ensures LowVal(v[..]) + Weight(toggle[v.Length] == 1, v.Length) == old(LowVal(v[..])) + 1
  {
    var bits := v.Length;
    var i := 0;
    while i < bits && toggle[i] == 1
      invariant i <= bits && IsBinary(v[..]) && toggle[i] <= 1
      invariant forall j :: i < j <= bits ==> toggle[j] == 0
      invariant LowVal(v[..]) + Weight(toggle[i] == 1, i) == old(LowVal(v[..])) + 1
    {
      ghost var before := v[..];
      LowValUpdate(before, i, if v[i] == '0' then '1' else '0');
      if v[i] == '0' {
        v[i] := '1';
        toggle[i + 1] := 0;
      } else {
        v[i] := '0';
        toggle[i + 1] := 1;
      }
      assert v[..] == before[i := v[i]];
      i := i + 1;
    }
  }

  /**
    All numerals of a width, in order: entry k is int2bin(k, bits).  With no digits at all the
    loop is not entered and the list is empty.
   */
  method BinaryRange(bits: nat) returns (l: seq<string>)
    ensures |l| == if bits == 0 then 0 else Pow2(bits)
    ensures forall k :: 0 <= k < |l| ==> Int2Bin(k, bits) == Ok(l[k])
  {
    l := [];
    var v := new char[bits](_ => '0');
    var toggle := new nat[bits + 1](i => if i == 0 then 1 else 0);
    LowZeros(v[..]);
    Pow2Grows(0, bits);
    while toggle[bits] != 1
      invariant v.Length == bits && toggle.Length == bits + 1 && fresh(v) && fresh(toggle) && v != toggle as object
      invariant IsBinary(v[..]) && toggle[bits] <= 1
      invariant bits == 0 ==> l == [] && toggle[bits] == 1
      invariant bits > 0 ==> LowVal(v[..]) + Weight(toggle[bits] == 1, bits) == |l| <= Pow2(bits)
      invariant forall k :: 0 <= k < |l| ==> Int2Bin(k, bits) == Ok(l[k])
      decreases Pow2(bits) - |l|, 1 - toggle[bits]
    {
      var vCopy := Reversed(v[..]);
      EntryIs(v[..]);
      LowValBound(v[..]);
      l := l + [vCopy];
      toggle := new nat[bits + 1](i => if i == 0 then 1 else 0);
      Increment(v, toggle);
      LowValBound(v[..]);
    }
    LowValBound(v[..]);
  }

  lemma {:induction false} EntryIs(v: string)
    requires IsBinary(v) && v != ""
    ensures Int2Bin(LowVal(v), |v|) == Ok(Reversed(v))
  {
    ReversedVal(v);
    Int2BinOfBin2Int(Reversed(v));
  }
}
