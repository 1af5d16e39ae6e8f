/** What every run of the pipeline keeps: it refines a bounded chunk queue, loses
    and reorders no byte, and gives every buffer one owner at a time. */
module PipelineSafety {
  import opened Bytes
  import opened ChunkFifo
  import opened Pipeline
  import opened PipelineInvariant

  // ---- Refinement -------------------------------------------------------------------

  /** What an event of the pipeline does to the queue of chunks. */
  function ActionOf(e: Event): Action {
    match e
    case DeviceRead(ret, content) => if 0 <= ret <= |content| then Enqueue(content[..ret]) else Skip
    case SocketWrote(k) => Emit(k)
    case SenderReturn => Dequeue
    case _ => Skip
  }

  function ActionsOf(evs: seq<Event>): seq<Action> {
    seq(|evs|, i requires 0 <= i < |evs| => ActionOf(evs[i]))
  }

  /** The queue of chunks a pipeline state stands for. */
  function Abs(s: State): Fifo {
    Fifo(s.N(), s.chunks, s.returned, s.Offset())
  }

  lemma AbsValid(s: State)
    requires s.Inv()
    ensures Abs(s).Valid() && Abs(s).Output() == s.out
  {
    QueueInRing(s);
    HeldInRange(s);
    if s.returned == |s.chunks| {
      assert s.chunks[..s.returned] == s.chunks;
      assert s.Queue() == [] && s.SenderHolds() == [];
    }
  }

  /** There is room in the queue when the reader fills, and the head of the queue is the sender's chunk. */
  lemma QueueRoom(s: State)
    requires s.Inv()
    ensures s.reader.RFill? ==> |s.chunks| < s.returned + s.N()
    ensures s.sender.SSend? ==> s.returned < |s.chunks| && |s.chunks[s.returned]| == s.lengths[s.sender.i]
    ensures s.sender.SReturn? ==> s.returned < |s.chunks| && |s.chunks[s.returned]| == s.sender.off
  {
    HeldInRange(s);
    QueueInRing(s);
    if s.sender.SSend? || s.sender.SReturn? {
      assert s.Queue()[0] == s.sender.i;
    }
  }

  /** Every step of the pipeline is one legal action of the queue, or none. */
  lemma StepRefines(s: State, e: Event)
    requires s.Inv() && Enabled(s, e)
    ensures Abs(s).Valid() && CanDo(Abs(s), ActionOf(e))
    ensures Do(Abs(s), ActionOf(e)) == Abs(Step(s, e))
  {
    AbsValid(s);
    HeldInRange(s);
    QueueRoom(s);
  }

  /** Every run of the pipeline is a run of the queue: its events, read as queue
      actions, are all legal and lead to the state the pipeline stands for. */
  lemma {:induction false} RunRefines(s: State, evs: seq<Event>)
    requires s.Inv() && Feasible(s, evs)
    ensures Abs(s).Valid() && CanDoAll(Abs(s), ActionsOf(evs))
    ensures DoAll(Abs(s), ActionsOf(evs)) == Abs(Exec(s, evs))
    decreases |evs|
  {
    AbsValid(s);
    if evs != [] {
      StepRefines(s, evs[0]);
      StepInv(s, evs[0]);
      RunRefines(Step(s, evs[0]), evs[1..]);
      assert ActionsOf(evs)[1..] == ActionsOf(evs[1..]);
    }
  }

  // ---- Stream integrity ---------------------------------------------------------------

  /** The chunks the device delivered during a run: its successful reads, in order. */
  function Delivered(evs: seq<Event>): seq<seq<byte>> {
    if evs == [] then [] else DeliveredBy(evs[0]) + Delivered(evs[1..])
  }

  function DeliveredBy(e: Event): seq<seq<byte>> {
    match e
    case DeviceRead(ret, content) => if 0 <= ret <= |content| then [content[..ret]] else []
    case _ => []
  }

  lemma {:induction false} DeliveredIsEnqueued(evs: seq<Event>)
    ensures Enqueued(ActionsOf(evs)) == Delivered(evs)
  {
    if evs != [] {
      DeliveredIsEnqueued(evs[1..]);
      assert ActionsOf(evs)[1..] == ActionsOf(evs[1..]);
    }
  }

  function Contents(s: State, indices: seq<nat>): seq<seq<byte>> {
    seq(|indices|, j requires 0 <= j < |indices| => Content(s.halves, s.lengths, indices[j]))
  }

  /** The bytes of the sender's buffer that are still to be written. */
  function Unsent(s: State): seq<byte> {
    var all := Flatten(Contents(s, s.SenderHolds()));
    if s.Offset() <= |all| then all[s.Offset()..] else []
  }

  /** At every point of every run the bytes on the socket, the rest of the sender's
      buffer, the queued buffers and the reader's filled buffer are together, in
      this order, exactly the bytes the device has delivered. */
  lemma {:induction false} StreamIntegrity(s: State, evs: seq<Event>)
    requires Init(s)
    requires s.Inv() && Feasible(s, evs)
    ensures var t := Exec(s, evs);
            t.out + Unsent(t) + Flatten(Contents(t, t.sockPipe)) + Flatten(Contents(t, t.ReaderFilled()))
            == Flatten(Delivered(evs))
    ensures Exec(s, evs).out <= Flatten(Delivered(evs))
  {
    var t := Exec(s, evs);
    RunRefines(s, evs);
    DoAllChunks(Abs(s), ActionsOf(evs));
    DeliveredIsEnqueued(evs);
    assert t.chunks == Delivered(evs);
    InFlight(t);
    AbsValid(t);
    OutputIsPrefix(Abs(t));
  }

  lemma InFlight(t: State)
    requires t.Inv()
    ensures t.out + Unsent(t) + Flatten(Contents(t, t.sockPipe)) + Flatten(Contents(t, t.ReaderFilled()))
            == Flatten(t.chunks)
  {
    var held, queued, filled := Contents(t, t.SenderHolds()), Contents(t, t.sockPipe), Contents(t, t.ReaderFilled());
    var q := t.Queue();
    assert Contents(t, q) == held + queued + filled;
    assert Contents(t, q) == t.chunks[t.returned..];
    assert t.chunks == t.chunks[..t.returned] + held + queued + filled;
    FlattenConcat(t.chunks[..t.returned] + held + queued, filled);
    FlattenConcat(t.chunks[..t.returned] + held, queued);
    FlattenConcat(t.chunks[..t.returned], held);
    SentAndUnsent(t);
  }

  lemma SentAndUnsent(t: State)
    requires t.Inv()
    ensures t.out + Unsent(t) == Flatten(t.chunks[..t.returned]) + Flatten(Contents(t, t.SenderHolds()))
  {
    var held := t.SenderHolds();
    if held == [] {
      assert Contents(t, held) == [];
      assert t.chunks[..|t.chunks|] == t.chunks;
    } else {
      var chunk := t.chunks[t.returned];
      assert t.Queue()[0] == held[0];
      assert held == [held[0]] && Contents(t, held) == [chunk];
      FlattenSingle(chunk);
      assert chunk == chunk[..t.Offset()] + chunk[t.Offset()..];
      Assoc(Flatten(t.chunks[..t.returned]), chunk[..t.Offset()], chunk[t.Offset()..]);
    }
  }

  lemma {:induction false} DeliveredConcat(a: seq<Event>, b: seq<Event>)
    ensures Delivered(a + b) == Delivered(a) + Delivered(b)
  {
    if a == [] {
      assert a + b == b;
    } else {
      assert (a + b)[0] == a[0] && (a + b)[1..] == a[1..] + b;
      DeliveredConcat(a[1..], b);
      Assoc(DeliveredBy(a[0]), Delivered(a[1..]), Delivered(b));
    }
  }

  /** A device read of length 0 takes a place in the queue and a buffer, like any chunk,
      while nothing that was or will be sent changes. */
  lemma ZeroLengthRead(s: State, content: seq<byte>)
    requires s.Inv() && Enabled(s, DeviceRead(0, content))
    ensures var t := Step(s, DeviceRead(0, content));
            && t.Queue() == s.Queue() + [s.reader.i] && t.ReaderFilled() == [s.reader.i]
            && t.chunks == s.chunks + [[]] && Flatten(t.chunks) == Flatten(s.chunks)
            && t.out == s.out && t.returned == s.returned
  {
    HeldInRange(s);
    FlattenSnoc(s.chunks, []);
    assert content[..0] == [];
  }

  /** Over a whole run: one chunk more, the same stream. */
  lemma ZeroLengthReadInRun(before: seq<Event>, content: seq<byte>, after: seq<Event>)
    ensures var evs := before + [DeviceRead(0, content)] + after;
            && |Delivered(evs)| == |Delivered(before + after)| + 1
            && Flatten(Delivered(evs)) == Flatten(Delivered(before + after))
  {
    var e := DeviceRead(0, content);
    DeliveredConcat(before + [e], after);
    DeliveredConcat(before, [e]);
    DeliveredConcat(before, after);
    assert [e][1..] == [] && content[..0] == [];
    assert Delivered([e]) == [[]];
    EmptyChunkAddsNothing(Delivered(before), Delivered(after));
  }

  // ---- Order and ownership of buffers -----------------------------------------------------

  /** The k-th device read and the k-th send both use buffer k mod N, and no index
      pipe ever holds more than N - 1 bytes when another one is written to it. */
  lemma BufferOrder(s: State)
    requires s.Inv()
    ensures s.reader.RFill? ==> s.reader.i == |s.chunks| % s.N()
    ensures s.sender.SSend? || s.sender.SReturn? ==> s.sender.i == s.returned % s.N()
    ensures s.reader.RPublish? ==> |s.sockPipe| < s.N()
    ensures s.sender.SReturn? ==> |s.dmaPipe| < s.N()
    ensures 0 <= |s.chunks| - s.returned <= s.N()
  {
    HeldInRange(s);
    QueueInRing(s);
    if s.sender.SSend? || s.sender.SReturn? {
      assert s.Ring()[0] == s.sender.i;
    }
  }

  /** Whatever fails, no index is lost or doubled: both pipes and both threads,
      running or not, hold each of 0..N-1 exactly once. */
  lemma TokensConserved(s: State)
    requires s.Inv()
    ensures forall i :: 0 <= i < s.N() ==>
              (multiset(s.SenderHolds()) + multiset(s.sockPipe)
               + multiset(s.ReaderHolds()) + multiset(s.dmaPipe))[i] == 1
    ensures |s.SenderHolds()| + |s.sockPipe| + |s.ReaderHolds()| + |s.dmaPipe| == s.N()
  {
    HeldInRange(s);
    assert multiset(s.Ring())
        == multiset(s.SenderHolds()) + multiset(s.sockPipe) + multiset(s.ReaderHolds()) + multiset(s.dmaPipe);
    forall i | 0 <= i < s.N()
      ensures multiset(s.Ring())[i] == 1
    {
      RotationHasOnce(s.N(), s.returned, i);
    }
  }

  lemma RotationHasOnce(n: nat, k: nat, i: nat)
    requires i < n
    ensures multiset(Rotation(n, k))[i] == 1
  {
    var ring := Rotation(n, k);
    var j := PlaceOf(n, k, i);
    assert ring == ring[..j] + [ring[j]] + ring[j + 1..];
    assert i !in ring[..j] by {
      forall m | 0 <= m < j ensures ring[m] != i { RotationDistinct(n, k, m, j); }
    }
    assert i !in ring[j + 1..] by {
      forall m | j < m < n ensures ring[m] != i { RotationDistinct(n, k, m, j); }
    }
  }

  /** Where index i stands in a rotation. */
  lemma PlaceOf(n: nat, k: nat, i: nat) returns (j: nat)
    requires i < n
    ensures j < n && Rotation(n, k)[j] == i
  {
    var r := k % n;
    if r <= i {
      j := i - r;
      ModUnique(k + j, n, k / n, i);
    } else {
      j := i + n - r;
      assert k + j == (k / n) * n + n + i;
      assert (k / n) * n + n == (k / n + 1) * n;
      ModUnique(k + j, n, k / n + 1, i);
    }
  }

  lemma CountSplit(a: seq<nat>, b: seq<nat>, c: seq<nat>, d: seq<nat>, i: nat)
    requires (multiset(a) + multiset(b) + multiset(c) + multiset(d))[i] == 1
    ensures i in a ==> i !in b && i !in c && i !in d
    ensures i in c ==> i !in a && i !in b && i !in d
  {
    assert i in a ==> multiset(a)[i] >= 1;
    assert i in b ==> multiset(b)[i] >= 1;
    assert i in c ==> multiset(c)[i] >= 1;
    assert i in d ==> multiset(d)[i] >= 1;
  }

  /** An index in a thread's hands is nowhere else. */
  lemma OneOwner(s: State, i: nat)
    requires s.Inv()
    ensures i in s.SenderHolds() ==> i !in s.sockPipe && i !in s.ReaderHolds() && i !in s.dmaPipe
    ensures i in s.ReaderHolds() ==> i !in s.SenderHolds() && i !in s.sockPipe && i !in s.dmaPipe
  {
    HeldInRange(s);
    if i in s.SenderHolds() || i in s.ReaderHolds() {
      assert i in s.Ring();
      TokensConserved(s);
      CountSplit(s.SenderHolds(), s.sockPipe, s.ReaderHolds(), s.dmaPipe, i);
    }
  }

  /** One step away from giving the index back, the sender's buffer stands still. */
  lemma SenderFrameStep(s: State, e: Event, i: nat)
    requires s.Inv() && Enabled(s, e) && s.SenderHolds() == [i] && e != SenderReturn
    ensures var t := Step(s, e);
            && t.SenderHolds() == [i] && t.returned == s.returned
            && i < s.N() && t.N() == s.N()
            && |t.halves| == |s.halves| == s.N()
            && t.lengths[i] == s.lengths[i] && t.halves[i] == s.halves[i]
  {
    HeldInRange(s);
    assert i in s.SenderHolds() && i in s.Ring();
    if s.reader.RFill? {
      SenderOwnsOther(s);
    }
  }

  /** From the moment the sender takes index i until it returns it, nothing any
      thread or the device does changes the length or a byte of buffer i. */
  lemma {:induction false} ExclusiveOwnership(s: State, evs: seq<Event>, i: nat)
    requires s.Inv() && Feasible(s, evs) && s.SenderHolds() == [i]
    requires SenderReturn !in evs
    ensures var t := Exec(s, evs);
            && t.SenderHolds() == [i]
            && i < s.N() && t.N() == s.N()
            && |t.halves| == |s.halves| == s.N()
            && t.lengths[i] == s.lengths[i] && t.halves[i] == s.halves[i]
    decreases |evs|
  {
    HeldInRange(s);
    assert i in s.SenderHolds() && i in s.Ring();
    if evs != [] {
      SenderFrameStep(s, evs[0], i);
      StepInv(s, evs[0]);
      ExclusiveOwnership(Step(s, evs[0]), evs[1..], i);
    }
  }

  /** A thread that left its loop keeps its index for good: the other thread
      never gets hold of it, on any continuation of the run. */
  lemma {:induction false} ExitedKeepsIndex(s: State, evs: seq<Event>)
    requires s.Inv() && Feasible(s, evs)
    ensures s.reader.RExit? ==>
              var t := Exec(s, evs);
              && t.reader == s.reader
              && forall i :: i in s.reader.held ==> i !in t.SenderHolds() && i !in t.sockPipe && i !in t.dmaPipe
    ensures s.sender.SExit? ==>
              var t := Exec(s, evs);
              && t.sender == s.sender
              && forall i :: i in s.sender.held ==> i !in t.ReaderHolds() && i !in t.sockPipe && i !in t.dmaPipe
    decreases |evs|
  {
    if evs != [] {
      StepInv(s, evs[0]);
      ExitedKeepsIndex(Step(s, evs[0]), evs[1..]);
    } else {
      forall i ensures i in s.SenderHolds() ==> i !in s.sockPipe && i !in s.ReaderHolds() && i !in s.dmaPipe {
        if i >= 0 { OneOwner(s, i); }
      }
      forall i ensures i in s.ReaderHolds() ==> i !in s.SenderHolds() && i !in s.sockPipe && i !in s.dmaPipe {
        if i >= 0 { OneOwner(s, i); }
      }
    }
  }
}
