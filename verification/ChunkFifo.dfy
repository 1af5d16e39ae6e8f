/**
  The reference for the acquisition pipeline: a bounded first-in first-out queue
  of chunks whose head is written out piece by piece. It knows nothing of
  buffers, pipes or threads.
 */
module ChunkFifo {
  import opened Bytes

  /** `chunks` is everything ever enqueued, the first `taken` of which are gone;
      `off` bytes of the next one have been emitted. */
  datatype Fifo = Fifo(capacity: nat, chunks: seq<seq<byte>>, taken: nat, off: nat)
  {
    predicate Valid() {
      && taken <= |chunks| <= taken + capacity
      && (if taken < |chunks| then off <= |chunks[taken]| else off == 0)
    }

    /** All bytes emitted so far. */
    function Output(): seq<byte>
      requires Valid()
    {
      Flatten(chunks[..taken]) + (if taken < |chunks| then chunks[taken][..off] else [])
    }
  }

  datatype Action = Enqueue(chunk: seq<byte>) | Emit(k: nat) | Dequeue | Skip

  predicate CanDo(f: Fifo, a: Action) {
    match a
    case Enqueue(_) => |f.chunks| < f.taken + f.capacity
    case Emit(k) => f.taken < |f.chunks| && f.off + k <= |f.chunks[f.taken]|
    case Dequeue => f.taken < |f.chunks| && f.off == |f.chunks[f.taken]|
    case Skip => true
  }

  function Do(f: Fifo, a: Action): (g: Fifo)
    requires f.Valid() && CanDo(f, a)
    ensures g.Valid() && g.capacity == f.capacity
  {
    match a
    case Enqueue(chunk) => f.(chunks := f.chunks + [chunk])
    case Emit(k) => f.(off := f.off + k)
    case Dequeue => f.(taken := f.taken + 1, off := 0)
    case Skip => f
  }

  predicate CanDoAll(f: Fifo, actions: seq<Action>)
    requires f.Valid()
    decreases |actions|
  {
    actions == [] || (CanDo(f, actions[0]) && CanDoAll(Do(f, actions[0]), actions[1..]))
  }

  function DoAll(f: Fifo, actions: seq<Action>): (g: Fifo)
    requires f.Valid() && CanDoAll(f, actions)
    ensures g.Valid() && g.capacity == f.capacity
    decreases |actions|
  {
    if actions == [] then f else DoAll(Do(f, actions[0]), actions[1..])
  }

  /** What a legal sequence of actions has enqueued. */
  function Enqueued(actions: seq<Action>): seq<seq<byte>> {
    if actions == [] then []
    else (if actions[0].Enqueue? then [actions[0].chunk] else []) + Enqueued(actions[1..])
  }

  lemma {:induction false} DoAllChunks(f: Fifo, actions: seq<Action>)
    requires f.Valid() && CanDoAll(f, actions)
    ensures DoAll(f, actions).chunks == f.chunks + Enqueued(actions)
    decreases |actions|
  {
    if actions != [] {
      DoAllChunks(Do(f, actions[0]), actions[1..]);
    }
  }

  /** First in, first out: the output is always a prefix of the enqueued stream. */
  lemma OutputIsPrefix(f: Fifo)
    requires f.Valid()
    ensures f.Output() <= Flatten(f.chunks)
  {
    if f.taken < |f.chunks| {
      FlattenCutIsPrefix(f.chunks, f.taken, f.off);
    } else {
      assert f.chunks[..f.taken] == f.chunks;
    }
  }

  /** A chunk of length zero adds nothing to the stream. */
  lemma EmptyChunkAddsNothing(a: seq<seq<byte>>, b: seq<seq<byte>>)
    ensures Flatten(a + [[]] + b) == Flatten(a + b)
  {
    FlattenConcat(a + [[]], b);
    FlattenSnoc(a, []);
    FlattenConcat(a, b);
  }
}
