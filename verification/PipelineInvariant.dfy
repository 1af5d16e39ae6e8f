/** The pipeline's invariant holds at the start and is kept by every step of every interleaving. */
module PipelineInvariant {
  import opened Bytes
  import opened Pipeline

  lemma MulSign(p: int, n: int)
    requires n > 0
    ensures p >= 1 ==> p * n >= n
    ensures p <= -1 ==> p * n <= -n
  {
    if p >= 1 {
      assert (p - 1) * n >= 0;
    } else if p <= -1 {
      assert (-p - 1) * n >= 0;
    }
  }

  lemma ModUnique(a: int, n: int, q: int, m: int)
    requires n > 0 && 0 <= m < n && a == q * n + m
    ensures a % n == m
  {
    MulSign(a / n - q, n);
    assert (a / n - q) * n == (a / n) * n - q * n;
  }

  lemma ModPlusN(a: int, n: int)
    requires n > 0
    ensures (a + n) % n == a % n
  {
    ModUnique(a + n, n, a / n + 1, a % n);
  }

  /** Two places of a lap that are less than n apart never share an index. */
  lemma ModDistinct(a: int, b: int, n: int)
    requires n > 0 && a < b < a + n
    ensures a % n != b % n
  {
    MulSign(b / n - a / n, n);
    assert (b / n - a / n) * n == (b / n) * n - (a / n) * n;
  }

  /** Moving the head of a rotation to its tail is the next rotation. */
  lemma RotationNext(n: nat, k: nat)
    requires n > 0
    ensures Rotation(n, k + 1) == Rotation(n, k)[1..] + [Rotation(n, k)[0]]
  {
    ModPlusN(k, n);
    assert (k + 1) + (n - 1) == k + n;
  }

  lemma RotationDistinct(n: nat, k: nat, i: nat, j: nat)
    requires n > 0 && i < n && j < n && i != j
    ensures Rotation(n, k)[i] != Rotation(n, k)[j]
  {
    if i < j {
      ModDistinct(k + i, k + j, n);
    } else {
      ModDistinct(k + j, k + i, n);
    }
  }

  lemma InitInv(s: State)
    requires Init(s)
    ensures s.Inv()
  {
    assert s.Ring() == s.dmaPipe;
    forall j | 0 <= j < s.N()
      ensures s.dmaPipe[j] == Rotation(s.N(), 0)[j]
    {
      ModUnique(j, s.N(), 0, j);
    }
    assert s.Ring() == Rotation(s.N(), 0);
    assert s.Queue() == [];
  }

  /** The queue is the front part of the ring; an unfilled buffer the reader holds comes right behind it. */
  lemma QueueInRing(s: State)
    ensures |s.Queue()| <= |s.Ring()|
    ensures s.Queue() == s.Ring()[..|s.Queue()|]
    ensures s.reader.RFill? ==> |s.Queue()| < |s.Ring()| && s.Ring()[|s.Queue()|] == s.reader.i
  {
    assert s.ReaderFilled() == s.ReaderHolds() || s.ReaderFilled() == [];
  }

  /** The index the reader fills into is none of the queued ones. */
  lemma FillTargetNotQueued(s: State)
    requires s.N() > 0 && s.Ring() == Rotation(s.N(), s.returned) && s.reader.RFill?
    ensures s.reader.i < s.N()
    ensures forall j :: 0 <= j < |s.Queue()| ==> s.Queue()[j] != s.reader.i
  {
    HeldInRange(s);
    QueueInRing(s);
    forall j | 0 <= j < |s.Queue()|
      ensures s.Queue()[j] != s.reader.i
    {
      RotationDistinct(s.N(), s.returned, j, |s.Queue()|);
    }
  }

  /** Changing a buffer that is not queued changes no queued chunk. */
  lemma QueueHoldsFrame(queue: seq<nat>, halves: seq<seq<byte>>, lengths: seq<int>, chunks: seq<seq<byte>>,
                        returned: nat, i: nat, content: seq<byte>, ret: int)
    requires QueueHolds(queue, halves, lengths, chunks, returned)
    requires i < |halves| && i < |lengths| && i !in queue
    ensures QueueHolds(queue, halves[i := content], lengths[i := ret], chunks, returned)
    ensures QueueHolds(queue, halves[i := content], lengths, chunks, returned)
  {
  }

  lemma DmaProgressInv(s: State, content: seq<byte>)
    requires s.Inv() && Enabled(s, DmaProgress(content))
    requires s.reader.i < s.N()
    ensures AfterDma(s, content).Inv()
  {
    FillTargetNotQueued(s);
    var t := AfterDma(s, content);
    QueueHoldsFrame(s.Queue(), s.halves, s.lengths, s.chunks, s.returned, s.reader.i, content, 0);
    SenderOwnsOther(s);
    assert t.Ring() == s.Ring();
  }

  /** While the reader fills a buffer the sender holds a different one. */
  lemma SenderOwnsOther(s: State)
    requires s.N() > 0 && s.Ring() == Rotation(s.N(), s.returned) && s.reader.RFill?
    ensures s.reader.i !in s.SenderHolds()
  {
    FillTargetNotQueued(s);
    forall x | x in s.SenderHolds()
      ensures x in s.Queue()
    {
    }
  }

  lemma DeviceReadInv(s: State, ret: int, content: seq<byte>)
    requires s.Inv() && Enabled(s, DeviceRead(ret, content))
    requires s.reader.i < s.N()
    ensures AfterDeviceRead(s, ret, content).Inv()
  {
    var t := AfterDeviceRead(s, ret, content);
    assert t.BuffersOk();
    SenderOwnsOther(s);
    assert t.PlacesOk();
    assert t.Ring() == s.Ring();
    DeviceReadQueue(s, ret, content);
    if ret >= 0 {
      OutIsGrow(s.out, s.chunks, s.returned, s.Offset(), content[..ret]);
    }
  }

  lemma DeviceReadQueue(s: State, ret: int, content: seq<byte>)
    requires s.Inv() && Enabled(s, DeviceRead(ret, content))
    requires s.reader.i < s.N()
    ensures var t := AfterDeviceRead(s, ret, content); QueueHolds(t.Queue(), t.halves, t.lengths, t.chunks, t.returned)
  {
    FillTargetNotQueued(s);
    var t := AfterDeviceRead(s, ret, content);
    QueueHoldsFrame(s.Queue(), s.halves, s.lengths, s.chunks, s.returned, s.reader.i, content, ret);
    if ret < 0 {
      assert t.Queue() == s.Queue();
    } else {
      assert t.Queue() == s.Queue() + [s.reader.i];
      assert Content(t.halves, t.lengths, s.reader.i) == content[..ret];
    }
  }

  /** A new chunk behind the others does not change what was already sent. */
  lemma OutIsGrow(out: seq<byte>, chunks: seq<seq<byte>>, returned: nat, off: nat, c: seq<byte>)
    requires OutIs(out, chunks, returned, off) && (returned == |chunks| ==> off == 0)
    ensures OutIs(out, chunks + [c], returned, off)
  {
    assert (chunks + [c])[..returned] == chunks[..returned];
    assert chunks[..|chunks|] == chunks;
    assert c[..0] == [];
  }

  /** A step that only moves an index to its neighbour in the ring keeps the invariant. */
  lemma MoveInv(s: State, t: State)
    requires s.Inv() && t.PlacesOk()
    requires t.Ring() == s.Ring() && t.Queue() == s.Queue()
    requires t.size == s.size && t.halves == s.halves && t.lengths == s.lengths && t.returned == s.returned
    requires t.chunks == s.chunks && t.out == s.out && t.Offset() == s.Offset()
    ensures t.Inv()
  {
  }

  lemma ReaderTakeInv(s: State)
    requires s.Inv() && Enabled(s, ReaderTake)
    ensures s.(reader := RFill(s.dmaPipe[0]), dmaPipe := s.dmaPipe[1..]).Inv()
  {
    var t := s.(reader := RFill(s.dmaPipe[0]), dmaPipe := s.dmaPipe[1..]);
    assert s.dmaPipe == [s.dmaPipe[0]] + s.dmaPipe[1..];
    assert t.Ring() == s.Ring();
    MoveInv(s, t);
  }

  lemma ReaderPublishInv(s: State)
    requires s.Inv() && Enabled(s, ReaderPublish)
    ensures s.(reader := RTest, sockPipe := s.sockPipe + [s.reader.i]).Inv()
  {
    var t := s.(reader := RTest, sockPipe := s.sockPipe + [s.reader.i]);
    assert t.Ring() == s.Ring();
    assert t.Queue() == s.Queue();
    MoveInv(s, t);
  }

  lemma SenderTakeInv(s: State)
    requires s.Inv() && Enabled(s, SenderTake)
    requires s.sockPipe[0] < s.N()
    ensures AfterSenderTake(s).Inv()
  {
    var t := AfterSenderTake(s);
    assert t.SenderHolds() + t.sockPipe == s.SenderHolds() + s.sockPipe;
    assert t.Ring() == s.Ring();
    assert t.Queue() == s.Queue();
    MoveInv(s, t);
  }

  lemma SocketWroteInv(s: State, k: nat)
    requires s.Inv() && Enabled(s, SocketWrote(k))
    ensures AfterSocketWrote(s, k).Inv()
  {
    var t := AfterSocketWrote(s, k);
    var i, off := s.sender.i, s.sender.off;
    assert s.Queue()[0] == i;
    assert s.halves[i][off..off + k] == s.chunks[s.returned][off..off + k];
    OutIsMore(s.out, s.chunks, s.returned, off, k);
    assert t.Ring() == s.Ring() && t.Queue() == s.Queue();
  }

  lemma OutIsMore(out: seq<byte>, chunks: seq<seq<byte>>, returned: nat, off: nat, k: nat)
    requires returned < |chunks| && OutIs(out, chunks, returned, off) && off + k <= |chunks[returned]|
    ensures OutIs(out + chunks[returned][off..off + k], chunks, returned, off + k)
  {
    var chunk := chunks[returned];
    assert chunk[..off + k] == chunk[..off] + chunk[off..off + k];
  }

  lemma SenderReturnInv(s: State)
    requires s.Inv() && Enabled(s, SenderReturn)
    ensures AfterSenderReturn(s).Inv()
  {
    var t := AfterSenderReturn(s);
    SenderReturnRing(s);
    assert s.Queue()[0] == s.sender.i;
    OutIsNext(s.out, s.chunks, s.returned);
  }

  /** Returning an index turns the ring by one place and drops the head of the queue. */
  lemma SenderReturnRing(s: State)
    requires s.N() > 0 && s.Ring() == Rotation(s.N(), s.returned) && s.sender.SReturn?
    ensures AfterSenderReturn(s).Ring() == Rotation(s.N(), s.returned + 1)
    ensures s.Queue() != [] && AfterSenderReturn(s).Queue() == s.Queue()[1..]
  {
    RotationNext(s.N(), s.returned);
    TurnByOne(s.sender.i, s.sockPipe, s.ReaderHolds(), s.dmaPipe);
    TurnByOne(s.sender.i, s.sockPipe, s.ReaderFilled(), []);
  }

  lemma TurnByOne(i: nat, a: seq<nat>, b: seq<nat>, c: seq<nat>)
    ensures [] + a + b + (c + [i]) == ([i] + a + b + c)[1..] + [i]
    ensures [] + a + b == ([i] + a + b)[1..]
  {
  }

  /** Once the whole of a chunk is out, the next chunk starts with nothing sent. */
  lemma OutIsNext(out: seq<byte>, chunks: seq<seq<byte>>, returned: nat)
    requires returned < |chunks| && OutIs(out, chunks, returned, |chunks[returned]|)
    ensures OutIs(out, chunks, returned + 1, 0)
  {
    var chunk := chunks[returned];
    assert chunk[..|chunk|] == chunk;
    FlattenSnoc(chunks[..returned], chunk);
    assert chunks[..returned + 1] == chunks[..returned] + [chunk];
    if returned + 1 == |chunks| {
      assert chunks[..returned + 1] == chunks;
    } else {
      assert chunks[returned + 1][..0] == [];
    }
  }

  /** Tests of the status word, retries and failures leave every index where it is. */
  lemma LocalInv(s: State, e: Event)
    requires s.Inv() && Enabled(s, e)
    requires e.Stop? || e.ReaderTest? || e.ReaderAgain? || e.ReaderFail?
             || e.SenderTest? || e.SenderAgain? || e.SenderFail?
    ensures Step(s, e).Inv()
  {
    MoveInv(s, Step(s, e));
  }

  lemma StepInv(s: State, e: Event)
    requires s.Inv() && Enabled(s, e)
    ensures Step(s, e).Inv()
  {
    HeldInRange(s);
    match e
    case DmaProgress(content) => DmaProgressInv(s, content);
    case DeviceRead(ret, content) => DeviceReadInv(s, ret, content);
    case SocketWrote(k) => SocketWroteInv(s, k);
    case SenderReturn => SenderReturnInv(s);
    case ReaderTake => ReaderTakeInv(s);
    case ReaderPublish => ReaderPublishInv(s);
    case SenderTake => SenderTakeInv(s);
    case _ => LocalInv(s, e);
  }

  /** The events can happen one after the other from s. */
  predicate Feasible(s: State, evs: seq<Event>)
    requires s.Inv()
    decreases |evs|
  {
    evs == [] || (Enabled(s, evs[0]) && (StepInv(s, evs[0]); Feasible(Step(s, evs[0]), evs[1..])))
  }

  /** The state a run ends in. */
  function Exec(s: State, evs: seq<Event>): (t: State)
    requires s.Inv() && Feasible(s, evs)
    ensures t.Inv()
    decreases |evs|
  {
    if evs == [] then s else StepInv(s, evs[0]); Exec(Step(s, evs[0]), evs[1..])
  }
}
