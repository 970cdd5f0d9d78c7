/**
  The sending application of tcp-large-transfer: a callback that writes a repeating alphabet
  from a fixed buffer for as long as the socket takes data, and goes on later where it stopped.
 */
module StreamWriter {

  /**
    How a socket behaves at one turn of the loop: the space it reports at the guard and when the
    write is sized, and how much of the write it accepts, if any.
   */
  datatype Turn = Turn(available: nat, availableAgain: nat, accepts: int)

  function Min(a: nat, b: nat): nat {
    if a <= b then a else b
  }

  /** The first n bytes of the stream whose k-th byte is 97 + k mod 26. */
  function Alphabet(n: nat): seq<int> {
    seq(n, k => 97 + k % 26)
  }

  /** How many bytes a willing socket takes at one turn, current of total having been taken before. */
  function Amount(current: nat, total: nat, writeSize: nat, turn: Turn): nat
    requires writeSize > 0 && current <= total && turn.accepts >= 0
  {
    Min(turn.accepts, Min(turn.availableAgain, Min(writeSize - current % writeSize, total - current)))
  }

  /** Where one call of the writer leaves off: its count, the turns it has not used, and whether it closed. */
  datatype Flow = Flow(current: nat, turns: seq<Turn>, closed: bool)

  ghost function FlowOf(current: nat, total: nat, writeSize: nat, turns: seq<Turn>): (f: Flow)
    requires writeSize > 0 && current <= total
    ensures current <= f.current <= total
    decreases turns
  {
    if current == total || turns == [] || turns[0].available == 0 then Flow(current, turns, true)
    else if turns[0].accepts < 0 then Flow(current, turns[1..], false)
    else FlowOf(current + Amount(current, total, writeSize, turns[0]), total, writeSize, turns[1..])
  }

  /** A socket that behaves in any way for as many turns as it has, and then reports no space. */
  class Socket {
    var turns: seq<Turn>
    var received: seq<int>
    var closes: nat

    constructor (turns: seq<Turn>)
      ensures this.turns == turns && received == [] && closes == 0
    {
      this.turns, received, closes := turns, [], 0;
    }

    method GetTxAvailable() returns (space: nat)
      ensures space == if turns == [] then 0 else turns[0].available
    {
      space := if turns == [] then 0 else turns[0].available;
    }

    method GetTxAvailableAgain() returns (space: nat)
      ensures space == if turns == [] then 0 else turns[0].availableAgain
    {
      space := if turns == [] then 0 else turns[0].availableAgain;
    }

    /** Takes some of the size bytes of data from offset on, or refuses with a negative result. */
    method Send(data: array<int>, offset: nat, size: nat) returns (amount: int)
      requires turns != [] && offset + size <= data.Length
      modifies this
      ensures turns == old(turns[1..]) && closes == old(closes)
      ensures amount == if old(turns[0].accepts) < 0 then -1 else Min(old(turns[0].accepts), size)
      ensures received == old(received) + (if amount < 0 then [] else data[offset..offset + amount])
    {
      var accepts := turns[0].accepts;
      turns := turns[1..];
      if accepts < 0 {
        amount := -1;
      } else {
        amount := Min(accepts, size);
        received := received + data[offset..offset + amount];
      }
    }

    method Close()
      modifies this`closes
      ensures closes == old(closes) + 1
    {
      closes := closes + 1;
    }
  }

  class Writer {
    const totalTxBytes: nat
    const writeSize: nat
    const data: array<int>
    var currentTxBytes: nat

    /** The buffer holds whole alphabets, so that it can be repeated without a seam. */
    ghost predicate Valid()
      reads this, data
    {
      && writeSize > 0 && writeSize % 26 == 0 && data.Length == writeSize
      && currentTxBytes <= totalTxBytes
      && forall i :: 0 <= i < writeSize ==> data[i] == 97 + i % 26
    }

    constructor (totalTxBytes: nat, writeSize: nat)
      requires writeSize > 0 && writeSize % 26 == 0
      ensures Valid() && fresh(data) && currentTxBytes == 0
      ensures this.totalTxBytes == totalTxBytes && this.writeSize == writeSize
    {
      this.totalTxBytes, this.writeSize, currentTxBytes := totalTxBytes, writeSize, 0;
      data := new int[writeSize];
      new;
      for i := 0 to writeSize
        invariant currentTxBytes == 0
        invariant forall j :: 0 <= j < i ==> data[j] == 97 + j % 26
      {
        data[i] := 97 + i % 26;
      }
    }

    /**
      Whatever the socket does, what it has received so far is exactly the beginning of the
      stream, as long as the count says, and never more than the total.
     */
    method WriteUntilBufferFull(localSocket: Socket)
      requires Valid() && localSocket.received == Alphabet(currentTxBytes)
      modifies this`currentTxBytes, localSocket
      ensures Valid() && localSocket.received == Alphabet(currentTxBytes)
      ensures var f := FlowOf(old(currentTxBytes), totalTxBytes, writeSize, old(localSocket.turns));
        && currentTxBytes == f.current && localSocket.turns == f.turns
        && localSocket.closes == old(localSocket.closes) + (if f.closed then 1 else 0)
    {
      var space := localSocket.GetTxAvailable();
      while currentTxBytes < totalTxBytes && space > 0
        invariant Valid() && localSocket.received == Alphabet(currentTxBytes)
        invariant localSocket.closes == old(localSocket.closes)
        invariant space == (if localSocket.turns == [] then 0 else localSocket.turns[0].available)
        invariant FlowOf(currentTxBytes, totalTxBytes, writeSize, localSocket.turns)
          == FlowOf(old(currentTxBytes), totalTxBytes, writeSize, old(localSocket.turns))
        decreases |localSocket.turns|
      {
        var left := totalTxBytes - currentTxBytes;
        var dataOffset := currentTxBytes % writeSize;
        var toWrite := writeSize - dataOffset;
        toWrite := Min(toWrite, left);
        space := localSocket.GetTxAvailableAgain();
        toWrite := Min(toWrite, space);
        ghost var before := localSocket.received;
        var amountSent := localSocket.Send(data, dataOffset, toWrite);
        if amountSent < 0 {
          return;
        }
        NextPiece(data[..], writeSize, currentTxBytes, amountSent);
        assert localSocket.received == before + data[..][dataOffset..dataOffset + amountSent];
        currentTxBytes := currentTxBytes + amountSent;
        space := localSocket.GetTxAvailable();
      }
      localSocket.Close();
    }

    /** The call that starts the flow and the upcalls after it, however many there are. */
    method StartFlow(localSocket: Socket, upcalls: nat)
      requires Valid() && localSocket.received == Alphabet(currentTxBytes)
      modifies this`currentTxBytes, localSocket
      ensures Valid() && localSocket.received == Alphabet(currentTxBytes)
      ensures var f := FlowsOf(old(currentTxBytes), totalTxBytes, writeSize, old(localSocket.turns), upcalls + 1);
        currentTxBytes == f.current && localSocket.turns == f.turns
      ensures localSocket.closes == old(localSocket.closes)
        + Closings(old(currentTxBytes), totalTxBytes, writeSize, old(localSocket.turns), upcalls + 1)
    {
      for i := 0 to upcalls + 1
        invariant Valid() && localSocket.received == Alphabet(currentTxBytes)
        invariant var f := FlowsOf(old(currentTxBytes), totalTxBytes, writeSize, old(localSocket.turns), i);
          currentTxBytes == f.current && localSocket.turns == f.turns
        invariant localSocket.closes == old(localSocket.closes)
          + Closings(old(currentTxBytes), totalTxBytes, writeSize, old(localSocket.turns), i)
      {
        WriteUntilBufferFull(localSocket);
      }
    }
  }

  // ---------------------------------------------------------------- how far the flow gets

  /** Where a number of calls, one after the other, leave off. */
  ghost function FlowsOf(current: nat, total: nat, writeSize: nat, turns: seq<Turn>, calls: nat): (r: Flow)
    requires writeSize > 0 && current <= total
    ensures current <= r.current <= total
  {
    if calls == 0 then Flow(current, turns, false) else
    var f := FlowsOf(current, total, writeSize, turns, calls - 1);
    FlowOf(f.current, total, writeSize, f.turns)
  }

  /** How many of the calls close the socket. */
  ghost function Closings(current: nat, total: nat, writeSize: nat, turns: seq<Turn>, calls: nat): nat
    requires writeSize > 0 && current <= total
  {
    if calls == 0 then 0 else
    Closings(current, total, writeSize, turns, calls - 1)
    + (if FlowsOf(current, total, writeSize, turns, calls).closed then 1 else 0)
  }

  /** How many of the turns are refusals. */
  ghost function Refusals(turns: seq<Turn>): nat {
    if turns == [] then 0 else (if turns[0].accepts < 0 then 1 else 0) + Refusals(turns[1..])
  }

  lemma {:induction false} RefusalsAppend(a: seq<Turn>, b: seq<Turn>)
    ensures Refusals(a + b) == Refusals(a) + Refusals(b)
  {
    if a == [] {
      assert a + b == b;
    } else {
      RefusalsAppend(a[1..], b);
      assert (a + b)[1..] == a[1..] + b;
    }
  }

  /** The turns a call uses come first, and the only refusal among them is the one that ended it. */
  lemma {:induction false} CallUses(current: nat, total: nat, writeSize: nat, turns: seq<Turn>) returns (used: nat)
    requires writeSize > 0 && current <= total
    ensures var f := FlowOf(current, total, writeSize, turns);
      used <= |turns| && f.turns == turns[used..] && Refusals(turns[..used]) == if f.closed then 0 else 1
    decreases turns
  {
    used := 0;
    if current < total && turns != [] && turns[0].available > 0 {
      if turns[0].accepts < 0 {
        used := 1;
        assert turns[..1][1..] == [];
      } else {
        var more := CallUses(current + Amount(current, total, writeSize, turns[0]), total, writeSize, turns[1..]);
        used := more + 1;
        assert turns[..used][1..] == turns[1..][..more];
      }
    }
  }

  /** Every call closes the socket, once more, but for those that ended in a refusal. */
  lemma {:induction false} ClosingsAreTheRest(current: nat, total: nat, writeSize: nat, turns: seq<Turn>, calls: nat) returns (used: nat)
    requires writeSize > 0 && current <= total
    ensures used <= |turns| && FlowsOf(current, total, writeSize, turns, calls).turns == turns[used..]
    ensures Closings(current, total, writeSize, turns, calls) + Refusals(turns[..used]) == calls
  {
    used := 0;
    if calls > 0 {
      var before := ClosingsAreTheRest(current, total, writeSize, turns, calls - 1);
      var f := FlowsOf(current, total, writeSize, turns, calls - 1);
      var more := CallUses(f.current, total, writeSize, f.turns);
      used := before + more;
      assert turns[..used] == turns[..before] + turns[before..][..more];
      RefusalsAppend(turns[..before], turns[before..][..more]);
    }
  }

  /** So many bytes are accepted, there is space for them, and neither the buffer nor the transfer ends before. */
  predicate Fits(current: nat, total: nat, writeSize: nat, turn: Turn, n: nat)
    requires writeSize > 0
  {
    n <= turn.accepts && n <= turn.availableAgain && current % writeSize + n <= writeSize && current + n <= total
  }

  /** A turn takes as many bytes as fit, not fewer. */
  lemma {:induction false} AmountIsGreatest(current: nat, total: nat, writeSize: nat, turn: Turn, n: nat)
    requires writeSize > 0 && current <= total && turn.accepts >= 0
    ensures n == Amount(current, total, writeSize, turn) <==>
      && Fits(current, total, writeSize, turn, n)
      && forall m: nat :: Fits(current, total, writeSize, turn, m) ==> m <= n
  {
    var amount := Amount(current, total, writeSize, turn);
    assert Fits(current, total, writeSize, turn, amount);
  }

  ghost predicate Willing(turn: Turn) {
    turn.available > 0 && turn.availableAgain > 0 && turn.accepts > 0
  }

  /** A socket that takes something at every turn gets everything within one call. */
  lemma {:induction false} WillingSocketGetsAll(current: nat, total: nat, writeSize: nat, turns: seq<Turn>)
    requires writeSize > 0 && current <= total <= current + |turns|
    requires forall i :: 0 <= i < |turns| ==> Willing(turns[i])
    ensures var f := FlowOf(current, total, writeSize, turns); f.current == total && f.closed
    decreases turns
  {
    if current < total {
      assert Willing(turns[0]);
      WillingSocketGetsAll(current + Amount(current, total, writeSize, turns[0]), total, writeSize, turns[1..]);
    }
  }

  /** The socket reports space and refuses nothing at each of the first i turns. */
  ghost predicate Smooth(turns: seq<Turn>, i: nat) {
    i <= |turns| && forall j :: 0 <= j < i ==> turns[j].available > 0 && turns[j].accepts >= 0
  }

  /** The count after the first i turns, all of them smooth. */
  ghost function CountAfter(current: nat, total: nat, writeSize: nat, turns: seq<Turn>, i: nat): (count: nat)
    requires writeSize > 0 && current <= total && Smooth(turns, i)
    ensures current <= count <= total
    decreases i
  {
    if i == 0 then current else
    CountAfter(current + Amount(current, total, writeSize, turns[0]), total, writeSize, turns[1..], i - 1)
  }

  /** After i smooth turns bytes are left, and the socket reports no space. */
  ghost predicate OutOfSpaceAt(current: nat, total: nat, writeSize: nat, turns: seq<Turn>, i: nat)
    requires writeSize > 0 && current <= total
  {
    && Smooth(turns, i) && CountAfter(current, total, writeSize, turns, i) < total
    && (i == |turns| || turns[i].available == 0)
  }

  /** After i smooth turns bytes are left, and the socket refuses the write. */
  ghost predicate RefusedAt(current: nat, total: nat, writeSize: nat, turns: seq<Turn>, i: nat)
    requires writeSize > 0 && current <= total
  {
    && Smooth(turns, i) && CountAfter(current, total, writeSize, turns, i) < total
    && i < |turns| && turns[i].available > 0 && turns[i].accepts < 0
  }

  ghost predicate AllSentAt(current: nat, total: nat, writeSize: nat, turns: seq<Turn>, i: nat)
    requires writeSize > 0 && current <= total
  {
    Smooth(turns, i) && CountAfter(current, total, writeSize, turns, i) == total
  }

  /** Whichever of the three the turns show, the call ends in it. */
  lemma {:induction false} EndsAt(current: nat, total: nat, writeSize: nat, turns: seq<Turn>, i: nat)
    requires writeSize > 0 && current <= total
    ensures var f := FlowOf(current, total, writeSize, turns);
      && (OutOfSpaceAt(current, total, writeSize, turns, i) ==>
            f == Flow(CountAfter(current, total, writeSize, turns, i), turns[i..], true))
      && (RefusedAt(current, total, writeSize, turns, i) ==>
            f == Flow(CountAfter(current, total, writeSize, turns, i), turns[i + 1..], false))
      && (AllSentAt(current, total, writeSize, turns, i) ==> f.current == total && f.closed)
    decreases i
  {
    if i > 0 && Smooth(turns, i) && current < total {
      OneTurnOn(current, total, writeSize, turns, i);
      EndsAt(current + Amount(current, total, writeSize, turns[0]), total, writeSize, turns[1..], i - 1);
    }
  }

  /** After a smooth turn the rest of the call looks at the rest of the turns. */
  lemma {:induction false} OneTurnOn(current: nat, total: nat, writeSize: nat, turns: seq<Turn>, i: nat)
    requires writeSize > 0 && current < total && i > 0 && Smooth(turns, i)
    ensures var next, rest := current + Amount(current, total, writeSize, turns[0]), turns[1..];
      && FlowOf(current, total, writeSize, turns) == FlowOf(next, total, writeSize, rest)
      && Smooth(rest, i - 1)
      && CountAfter(current, total, writeSize, turns, i) == CountAfter(next, total, writeSize, rest, i - 1)
      && rest[i - 1..] == turns[i..] && (i < |turns| ==> rest[i - 1] == turns[i] && rest[i..] == turns[i + 1..])
  {
  }

  lemma {:induction false} SomeEnd(current: nat, total: nat, writeSize: nat, turns: seq<Turn>) returns (i: nat)
    requires writeSize > 0 && current <= total
    ensures || OutOfSpaceAt(current, total, writeSize, turns, i) || RefusedAt(current, total, writeSize, turns, i)
            || AllSentAt(current, total, writeSize, turns, i)
    decreases turns
  {
    i := 0;
    if current < total && turns != [] && turns[0].available > 0 && turns[0].accepts >= 0 {
      var j := SomeEnd(current + Amount(current, total, writeSize, turns[0]), total, writeSize, turns[1..]);
      i := j + 1;
      assert Smooth(turns, i) by {
        forall k | 0 <= k < i ensures turns[k].available > 0 && turns[k].accepts >= 0 {
          assert k > 0 ==> turns[k] == turns[1..][k - 1];
        }
      }
    }
  }

  /**
    How a call ends is settled by the turns before it.  It closes early exactly when the socket
    reports no space before it refuses anything and before all is sent; it ends without closing
    exactly when the socket refuses before that.
   */
  lemma {:induction false} WhyItEnds(current: nat, total: nat, writeSize: nat, turns: seq<Turn>)
    requires writeSize > 0 && current <= total
    ensures var f := FlowOf(current, total, writeSize, turns);
      && (f.closed && f.current < total <==> exists i: nat :: OutOfSpaceAt(current, total, writeSize, turns, i))
      && (!f.closed <==> exists i: nat :: RefusedAt(current, total, writeSize, turns, i))
      && (f.current == total <==> exists i: nat :: AllSentAt(current, total, writeSize, turns, i))
  {
    var i := SomeEnd(current, total, writeSize, turns);
    forall j: nat
      ensures OutOfSpaceAt(current, total, writeSize, turns, j) ==>
        FlowOf(current, total, writeSize, turns).closed && FlowOf(current, total, writeSize, turns).current < total
      ensures RefusedAt(current, total, writeSize, turns, j) ==>
        !FlowOf(current, total, writeSize, turns).closed && FlowOf(current, total, writeSize, turns).current < total
      ensures AllSentAt(current, total, writeSize, turns, j) ==>
        FlowOf(current, total, writeSize, turns).closed && FlowOf(current, total, writeSize, turns).current == total
    {
      EndsAt(current, total, writeSize, turns, j);
    }
  }

  /** A piece of the buffer continues the stream. */
  lemma {:induction false} NextPiece(data: seq<int>, writeSize: nat, current: nat, amount: nat)
    requires writeSize > 0 && writeSize % 26 == 0 && |data| == writeSize
    requires forall i :: 0 <= i < writeSize ==> data[i] == 97 + i % 26
    requires current % writeSize + amount <= writeSize
    ensures Alphabet(current) + data[current % writeSize..current % writeSize + amount] == Alphabet(current + amount)
  {
    var o := current % writeSize;
    var a, b := Alphabet(current) + data[o..o + amount], Alphabet(current + amount);
    forall k | 0 <= k < |b| ensures a[k] == b[k] {
      if k >= current {
        Seamless(writeSize, current, k - current);
      }
    }
  }

  lemma {:induction false} Seamless(writeSize: nat, current: nat, j: nat)
    requires writeSize > 0 && writeSize % 26 == 0
    ensures (current % writeSize + j) % 26 == (current + j) % 26
  {
    WholeAlphabets(writeSize, writeSize / 26, current / writeSize, current % writeSize, current, j);
  }

  lemma {:induction false} WholeAlphabets(w: nat, m: nat, q: nat, r: nat, c: nat, j: nat)
    requires w == 26 * m && c == w * q + r
    ensures (r + j) % 26 == (c + j) % 26
  {
    assert (26 * m) * q == 26 * (m * q);
    ModPlus(r + j, m * q);
  }

  lemma {:induction false} ModPlus(a: nat, n: nat)
    ensures (a + 26 * n) % 26 == a % 26
  {
    if n > 0 {
      ModPlus(a, n - 1);
      assert a + 26 * n == a + 26 * (n - 1) + 26;
    }
  }

  /** Repeating a buffer gives the stream exactly when its size is a multiple of 26. */
  lemma {:induction false} SeamlessIff(writeSize: nat)
    requires writeSize > 0
    ensures (forall k: nat :: 97 + (k % writeSize) % 26 == 97 + k % 26) <==> writeSize % 26 == 0
  {
    if writeSize % 26 == 0 {
      forall k: nat ensures (k % writeSize) % 26 == k % 26 {
        Seamless(writeSize, k, 0);
      }
    } else {
      var k: nat := writeSize;
      assert k % writeSize == 0;
      assert 97 + (k % writeSize) % 26 != 97 + k % 26;
    }
  }
}
