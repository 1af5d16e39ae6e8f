/** The incrementing-sequence checker of the DMA and command tests, and the loop that
    feeds it one read after the other. */
module IncCheck {
  import opened Bytes

  /** `next` goes on from `prev`: plus one, modulo 256. */
  predicate Continues(prev: byte, next: byte) {
    next as int == (prev as int + 1) % 256
  }

  /** Increment of a char: wraps at 256. */
  function Succ(b: byte): (next: byte)
    ensures forall c: byte :: Continues(b, c) <==> c == next
  {
    if b == 255 then 0 else b + 1
  }

  function Pred(b: byte): (prev: byte)
    ensures forall c: byte :: Continues(c, b) <==> c == prev
  {
    if b == 0 then 255 else b - 1
  }

  /** The byte in front of position i of data that follow the byte `start`. */
  function Before(start: byte, data: seq<byte>, i: nat): byte
    requires i < |data|
  {
    if i == 0 then start else data[i - 1]
  }

  /** Position i breaks the sequence. */
  predicate Break(start: byte, data: seq<byte>, i: nat)
    requires i < |data|
  {
    !Continues(Before(start, data, i), data[i])
  }

  /** The last byte of data that follow the byte `start`. */
  function Last(start: byte, data: seq<byte>): byte {
    if data == [] then start else data[|data| - 1]
  }

  function Count(start: byte, data: seq<byte>): nat {
    if data == [] then 0
    else
      var n := |data| - 1;
      Count(start, data[..n]) + (if Continues(Last(start, data[..n]), data[n]) then 0 else 1)
  }

  function BreakSet(start: byte, data: seq<byte>): set<int> {
    set i | 0 <= i < |data| && Break(start, data, i)
  }

  /** The closed form: the number of positions whose byte is not its predecessor plus one modulo 256. */
  lemma {:induction false} CountIsBreaks(start: byte, data: seq<byte>)
    ensures Count(start, data) == |BreakSet(start, data)|
  {
    if data != [] {
      var n := |data| - 1;
      var front := data[..n];
      CountIsBreaks(start, front);
      assert forall i :: 0 <= i < n ==> (Break(start, data, i) <==> Break(start, front, i));
      if Break(start, data, n) {
        assert BreakSet(start, data) == BreakSet(start, front) + {n};
      } else {
        assert BreakSet(start, data) == BreakSet(start, front);
      }
    }
  }

  /** The chunking law: counting b on from the last byte of a. */
  lemma {:induction false} CountConcat(start: byte, a: seq<byte>, b: seq<byte>)
    ensures Count(start, a + b) == Count(start, a) + Count(Last(start, a), b)
  {
    if b == [] {
      assert a + b == a;
    } else {
      var n := |b| - 1;
      CountConcat(start, a, b[..n]);
      assert (a + b)[..|a| + n] == a + b[..n];
      assert Last(start, a + b[..n]) == Last(Last(start, a), b[..n]);
    }
  }

  /** The first position never counts when counting starts from the byte's own predecessor. */
  lemma CountFromOwnPredecessor(start: byte, data: seq<byte>)
    requires data != []
    ensures Count(start, data) == Count(Pred(data[0]), data) + (if Break(start, data, 0) then 1 else 0)
  {
    var head, rest := [data[0]], data[1..];
    assert data == head + rest;
    CountConcat(start, head, rest);
    CountConcat(Pred(data[0]), head, rest);
    assert head[..0] == [];
  }

  /** The breaks between the bytes of `data` alone, whatever came before them. */
  function InnerBreaks(data: seq<byte>): set<int> {
    set i | 0 < i < |data| && InnerBreak(data, i)
  }

  predicate InnerBreak(data: seq<byte>, i: nat)
    requires 0 < i < |data|
  {
    !Continues(data[i - 1], data[i])
  }

  lemma InnerBreaksOnly(data: seq<byte>)
    requires data != []
    ensures BreakSet(Pred(data[0]), data) == InnerBreaks(data)
  {
    assert !Break(Pred(data[0]), data, 0);
    assert forall i :: 0 < i < |data| ==> (Break(Pred(data[0]), data, i) <==> InnerBreak(data, i));
  }

  /** The checker. With the flag set the given start value is replaced by the first
      byte's predecessor, so that the first position cannot count. */
  method CheckDataInc(startVal: byte, startValVaild: int, data: array<byte>, length: int) returns (errCnt: nat)
    requires length <= data.Length
    requires startValVaild == 1 ==> data.Length > 0
    ensures length > 0 && startValVaild == 1 ==> errCnt == |InnerBreaks(data[..length])|
    ensures length > 0 && startValVaild != 1 ==> errCnt == |BreakSet(startVal, data[..length])|
    ensures length <= 0 ==> errCnt == 0
  {
    errCnt := 0;
    var start := if startValVaild == 1 then Pred(data[0]) else startVal;
    var current := start;
    var i := 0;
    while i < length
      invariant 0 <= i && (length > 0 ==> i <= length)
      invariant i <= data.Length && errCnt == Count(start, data[..i]) && current == Last(start, data[..i])
      invariant length <= 0 ==> errCnt == 0
    {
      assert data[..i + 1][..i] == data[..i];
      current := Succ(current);
      if current != data[i] {
        current := data[i];
        errCnt := errCnt + 1;
      }
      i := i + 1;
    }
    if length > 0 {
      CountIsBreaks(start, data[..length]);
      InnerBreaksOnly(data[..length]);
    }
  }

  /** Chunk boundaries at which the stream breaks. */
  function BoundaryBreaks(chunks: seq<seq<byte>>): nat
    requires forall k :: 0 <= k < |chunks| ==> chunks[k] != []
  {
    if |chunks| < 2 then 0
    else
      var n := |chunks| - 1;
      BoundaryBreaks(chunks[..n]) + (if Continues(Last(0, chunks[n - 1]), chunks[n][0]) then 0 else 1)
  }

  /** Every chunk starts where the one before it left off. */
  predicate Seamless(chunks: seq<seq<byte>>)
    requires forall k :: 0 <= k < |chunks| ==> chunks[k] != []
  {
    forall k :: 1 <= k < |chunks| ==> Continues(Last(0, chunks[k - 1]), chunks[k][0])
  }

  lemma {:induction false} BoundaryBreaksZero(chunks: seq<seq<byte>>)
    requires forall k :: 0 <= k < |chunks| ==> chunks[k] != []
    ensures BoundaryBreaks(chunks) == 0 <==> Seamless(chunks)
  {
    if |chunks| >= 2 {
      var n := |chunks| - 1;
      var front := chunks[..n];
      BoundaryBreaksZero(front);
      assert forall k :: 0 <= k < n ==> front[k] == chunks[k];
    }
  }

  lemma {:induction false} LastOfFlatten(start: byte, chunks: seq<seq<byte>>)
    requires chunks != [] && chunks[|chunks| - 1] != []
    ensures Flatten(chunks) != [] && Last(start, Flatten(chunks)) == Last(0, chunks[|chunks| - 1])
  {
    var n := |chunks| - 1;
    assert chunks == chunks[..n] + [chunks[n]];
    FlattenSnoc(chunks[..n], chunks[n]);
  }

  /** The test loop: each non-empty read is checked, the first from the value 0 and
      every later one with the flag set. The total misses exactly the breaks at the
      boundaries between reads, so it is the number of breaks in the whole stream if and
      only if every read starts where the one before it left off. */
  method AccumulateErrors(chunks: seq<seq<byte>>) returns (errCntSum: nat)
    requires forall k :: 0 <= k < |chunks| ==> chunks[k] != []
    ensures errCntSum + BoundaryBreaks(chunks) == |BreakSet(0, Flatten(chunks))|
    ensures errCntSum == |BreakSet(0, Flatten(chunks))| <==> Seamless(chunks)
  {
    errCntSum := 0;
    var isFirstRead := true;
    var startVal: byte := 0;
    var k := 0;
    assert chunks[..0] == [];
    while k < |chunks|
      invariant 0 <= k <= |chunks| && isFirstRead == (k == 0)
      invariant startVal == if k == 0 then 0 else Last(0, chunks[k - 1])
      invariant errCntSum + BoundaryBreaks(chunks[..k]) == Count(0, Flatten(chunks[..k]))
    {
      var area := new byte[|chunks[k]|](i requires 0 <= i < |chunks[k]| => chunks[k][i]);
      assert area[..] == chunks[k] && area[..area.Length] == chunks[k];
      var err := CheckDataInc(startVal, if isFirstRead then 0 else 1, area, area.Length);
      ChunkCounted(chunks, k, err);
      errCntSum := errCntSum + err;
      isFirstRead := false;
      startVal := area[area.Length - 1];
      k := k + 1;
    }
    assert chunks[..k] == chunks;
    CountIsBreaks(0, Flatten(chunks));
    BoundaryBreaksZero(chunks);
  }

  lemma ChunkCounted(chunks: seq<seq<byte>>, k: nat, err: nat)
    requires forall j :: 0 <= j < |chunks| ==> chunks[j] != []
    requires k < |chunks|
    requires err == if k == 0 then |BreakSet(0, chunks[0])| else |InnerBreaks(chunks[k])|
    ensures Count(0, Flatten(chunks[..k + 1])) - BoundaryBreaks(chunks[..k + 1])
            == Count(0, Flatten(chunks[..k])) - BoundaryBreaks(chunks[..k]) + err
  {
    var c, front := chunks[k], chunks[..k];
    assert chunks[..k + 1] == front + [c] && chunks[..k + 1][..k] == front;
    FlattenSnoc(front, c);
    CountConcat(0, Flatten(front), c);
    CountIsBreaks(if k == 0 then 0 else Pred(c[0]), c);
    InnerBreaksOnly(c);
    if k > 0 {
      LastOfFlatten(0, front);
      CountFromOwnPredecessor(Last(0, Flatten(front)), c);
    }
  }

  /** Two reads, 1 and then 5: the stream has a break, the running total does not see it. */
  lemma BoundaryBreakIsMissed()
    ensures Count(0, Flatten([[1], [5]])) == 1
    ensures Count(0, [1]) + Count(Pred(5), [5]) == 0
  {
    assert Flatten([[1], [5]]) == [1, 5] by {
      FlattenSnoc([[1]], [5]);
      FlattenSingle([1]);
      assert [[1], [5]] == [[1]] + [[5]];
    }
    assert [1, 5][..1] == [1] && [1][..0] == [] && [5][..0] == [];
  }
}
