/** Bytes, byte streams, and streams that arrive in chunks. */
module Bytes {

  newtype byte = x: int | 0 <= x < 256

  /** The stream a list of chunks stands for. */
  function Flatten(chunks: seq<seq<byte>>): seq<byte> {
    if chunks == [] then [] else chunks[0] + Flatten(chunks[1..])
  }

  lemma Assoc<T>(a: seq<T>, b: seq<T>, c: seq<T>)
    ensures a + b + c == a + (b + c)
  {
  }

  lemma AppendCancel<T>(start: seq<T>, a: seq<T>, b: seq<T>)
    ensures start + a == start + b <==> a == b
  {
    assert (start + a)[|start|..] == a;
    assert (start + b)[|start|..] == b;
  }

  lemma {:induction false} FlattenConcat(a: seq<seq<byte>>, b: seq<seq<byte>>)
    ensures Flatten(a + b) == Flatten(a) + Flatten(b)
  {
    if a == [] {
      assert a + b == b;
    } else {
      FlattenConcat(a[1..], b);
      assert (a + b)[0] == a[0] && (a + b)[1..] == a[1..] + b;
      assert Flatten(a + b) == a[0] + Flatten(a[1..] + b);
      assert a[0] + (Flatten(a[1..]) + Flatten(b)) == (a[0] + Flatten(a[1..])) + Flatten(b);
    }
  }

  lemma FlattenSingle(c: seq<byte>)
    ensures Flatten([c]) == c
  {
    assert [c][1..] == [];
  }

  lemma FlattenSnoc(a: seq<seq<byte>>, c: seq<byte>)
    ensures Flatten(a + [c]) == Flatten(a) + c
  {
    FlattenConcat(a, [c]);
    FlattenSingle(c);
  }

  /** Cutting a chunk list anywhere, and then cutting the next chunk anywhere, gives a prefix of the stream. */
  lemma FlattenCutIsPrefix(chunks: seq<seq<byte>>, k: nat, off: nat)
    requires k < |chunks| && off <= |chunks[k]|
    ensures Flatten(chunks[..k]) + chunks[k][..off] <= Flatten(chunks)
  {
    assert chunks == chunks[..k] + chunks[k..];
    FlattenConcat(chunks[..k], chunks[k..]);
    assert chunks[k] == chunks[k][..off] + chunks[k][off..];
  }
}
