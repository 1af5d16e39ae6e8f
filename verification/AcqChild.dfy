/** The acquisition child process in place: one mapped area cut into halves, the
    buffer records that point into it, the two index pipes and the places of the
    two threads. Each method is one step of `Pipeline.Step`. */
module AcqChild {
  import opened Bytes
  import opened Pipeline
  import opened PipelineInvariant
  import opened PipelineSafety

  const MAX_DMA_LENGTH: nat := 0x400000

  /** `data` is the offset of the buffer's half in the mapped area. */
  class DmaBuffer {
    const index: nat
    const data: nat
    const capity: nat
    var length: int

    constructor (index: nat, capity: nat)
      ensures this.index == index && this.capity == capity && length == 0
      ensures data == index * capity
    {
      this.index := index;
      this.capity := capity;
      this.data := index * capity;
      this.length := 0;
    }
  }

  lemma HalfFits(i: nat, n: nat, capity: nat)
    requires i < n
    ensures i * capity + capity <= n * capity
  {
    assert n * capity == i * capity + capity + (n - i - 1) * capity;
    assert (n - i - 1) * capity >= 0;
  }

  /** The halves lie inside the mapped area, do not overlap, and hold what the records and `halves` say. */
  ghost predicate Mapped(area: array<byte>, capity: nat, buffList: seq<DmaBuffer>,
                         halves: seq<seq<byte>>, lengths: seq<int>)
    reads area, buffList
  {
    && |buffList| == |halves| == |lengths|
    && (forall i :: 0 <= i < |buffList| ==>
          && buffList[i].index == i
          && buffList[i].capity == capity
          && buffList[i].length == lengths[i]
          && buffList[i].data + capity <= area.Length
          && area[buffList[i].data..buffList[i].data + capity] == halves[i])
    && (forall i, j :: 0 <= i < j < |buffList| ==> buffList[i].data + capity <= buffList[j].data)
  }

  /** The loop that creates one record per half, and the seed of the dma pipe. */
  method InitRecords(n: nat, capity: nat) returns (buffList: seq<DmaBuffer>, indices: seq<nat>)
    ensures |buffList| == n && fresh(buffList)
    ensures forall i :: 0 <= i < n ==> buffList[i].index == i && buffList[i].data == i * capity
    ensures forall i :: 0 <= i < n ==> buffList[i].capity == capity && buffList[i].length == 0
    ensures indices == seq(n, i requires 0 <= i => i)
  {
    buffList, indices := [], [];
    for k := 0 to n
      invariant |buffList| == k && fresh(buffList)
      invariant forall i :: 0 <= i < k ==> buffList[i].index == i && buffList[i].data == i * capity
      invariant forall i :: 0 <= i < k ==> buffList[i].capity == capity && buffList[i].length == 0
      invariant indices == seq(k, i requires 0 <= i => i)
    {
      var b := new DmaBuffer(k, capity);
      buffList := buffList + [b];
      indices := indices + [k];
    }
  }

  /** What the mapped area holds, half by half. */
  ghost method HalvesOf(area: array<byte>, n: nat, capity: nat) returns (halves: seq<seq<byte>>)
    requires area.Length == n * capity
    ensures |halves| == n && forall i :: 0 <= i < n ==> |halves[i]| == capity
    ensures forall i :: 0 <= i < n ==>
              i * capity + capity <= n * capity && halves[i] == area[i * capity..i * capity + capity]
  {
    halves := [];
    for k := 0 to n
      invariant |halves| == k && forall i :: 0 <= i < k ==> |halves[i]| == capity
      invariant forall i :: 0 <= i < k ==>
                  i * capity + capity <= n * capity && halves[i] == area[i * capity..i * capity + capity]
    {
      HalfFits(k, n, capity);
      halves := halves + [area[k * capity..k * capity + capity]];
    }
  }

  /** Records at multiples of the capacity describe disjoint halves of the area. */
  lemma {:induction false} RecordsMapped(area: array<byte>, capity: nat, buffList: seq<DmaBuffer>,
                                         halves: seq<seq<byte>>)
    requires |buffList| == |halves| && area.Length == |buffList| * capity
    requires forall i :: 0 <= i < |buffList| ==>
               && buffList[i].index == i && buffList[i].data == i * capity
               && buffList[i].capity == capity && buffList[i].length == 0
    requires forall i :: 0 <= i < |buffList| ==>
               i * capity + capity <= |buffList| * capity && halves[i] == area[i * capity..i * capity + capity]
    ensures Mapped(area, capity, buffList, halves, seq(|buffList|, i => 0))
  {
    forall i, j | 0 <= i < j < |buffList|
      ensures buffList[i].data + capity <= buffList[j].data
    {
      HalfFits(i, j, capity);
    }
  }

  method InitArea(n: nat, capity: nat)
    returns (area: array<byte>, buffList: seq<DmaBuffer>, indices: seq<nat>, ghost halves: seq<seq<byte>>)
    ensures fresh(area) && fresh(buffList)
    ensures Mapped(area, capity, buffList, halves, seq(n, i => 0))
    ensures |halves| == n && forall i :: 0 <= i < n ==> |halves[i]| == capity
    ensures indices == seq(n, i requires 0 <= i => i)
  {
    area := new byte[n * capity];
    buffList, indices := InitRecords(n, capity);
    halves := HalvesOf(area, n, capity);
    RecordsMapped(area, capity, buffList, halves);
  }

  function Start(n: nat, capity: nat, halves: seq<seq<byte>>): State {
    State(capity, halves, seq(n, i => 0), seq(n, i requires 0 <= i => i), [], RTest, STest, false, [], [], 0)
  }

  lemma StartInit(n: nat, capity: nat, halves: seq<seq<byte>>)
    requires n > 0 && |halves| == n && forall i :: 0 <= i < n ==> |halves[i]| == capity
    ensures Init(Start(n, capity, halves)) && Start(n, capity, halves).Inv()
  {
    InitInv(Start(n, capity, halves));
  }

  class Child {
    const area: array<byte>
    const capity: nat
    const buffList: seq<DmaBuffer>
    var dmaIndexPipe: seq<nat>
    var socketIndexPipe: seq<nat>
    var reader: Reader
    var sender: Sender
    var stopped: bool
    var socketOut: seq<byte>
    /** The state of `Pipeline` this object is in. */
    ghost var view: State

    ghost predicate Valid()
      reads this, area, buffList
    {
      && view.Inv()
      && view.size == capity
      && Mapped(area, capity, buffList, view.halves, view.lengths)
      && view.dmaPipe == dmaIndexPipe && view.sockPipe == socketIndexPipe
      && view.reader == reader && view.sender == sender
      && view.stopped == stopped && view.out == socketOut
    }

    /** The program's child: n halves, both pipes open, the dma pipe seeded with all indices. */
    constructor (n: nat, capity: nat)
      requires n > 0
      ensures Valid() && Init(view) && fresh(area) && fresh(buffList)
      ensures view.N() == n && this.capity == capity
    {
      var mapped, list, indices, halves := InitArea(n, capity);
      StartInit(n, capity, halves);
      area := mapped;
      this.capity := capity;
      buffList := list;
      dmaIndexPipe := indices;
      socketIndexPipe := [];
      reader := RTest;
      sender := STest;
      stopped := false;
      socketOut := [];
      view := Start(n, capity, halves);
    }

    /** The device puts `content` into the half the reader has selected. */
    method DeviceWrites(i: nat, content: seq<byte>)
      requires Valid() && i < |buffList| && |content| == capity
      modifies area
      ensures Mapped(area, capity, buffList, view.halves[i := content], view.lengths)
    {
      var base := buffList[i].data;
      forall k | 0 <= k < capity {
        area[base + k] := content[k];
      }
      forall j | 0 <= j < |buffList|
        ensures area[buffList[j].data..buffList[j].data + capity] == if j == i then content else view.halves[j]
      {
        var lo := buffList[j].data;
        if j != i {
          assert lo + capity <= base || base + capity <= lo;
          assert area[lo..lo + capity] == old(area[lo..lo + capity]);
        }
      }
    }

    method SetLength(i: nat, ret: int, ghost halves: seq<seq<byte>>, ghost lengths: seq<int>)
      requires i < |buffList| && Mapped(area, capity, buffList, halves, lengths)
      modifies buffList[i]
      ensures buffList[i].length == ret
      ensures Mapped(area, capity, buffList, halves, lengths[i := ret])
    {
      var currBuf := buffList[i];
      currBuf.length := ret;
    }

    method TestReader()
      requires Valid() && Enabled(view, ReaderTest)
      modifies this
      ensures Valid() && view == Step(old(view), ReaderTest)
    {
      StepInv(view, ReaderTest);
      reader := if stopped then RExit([], false) else RTake;
      view := Step(view, ReaderTest);
    }

    method TakeDmaIndex()
      requires Valid() && Enabled(view, ReaderTake)
      modifies this
      ensures Valid() && view == Step(old(view), ReaderTake)
    {
      StepInv(view, ReaderTake);
      var bufIndex := dmaIndexPipe[0];
      dmaIndexPipe := dmaIndexPipe[1..];
      reader := RFill(bufIndex);
      view := Step(view, ReaderTake);
    }

    /** The device writes into its half before the read returns. */
    method DeviceProgress(content: seq<byte>)
      requires Valid() && Enabled(view, DmaProgress(content))
      modifies this, area
      ensures Valid() && view == Step(old(view), DmaProgress(content))
    {
      StepInv(view, DmaProgress(content));
      HeldInRange(view);
      DeviceWrites(reader.i, content);
      view := AfterDma(view, content);
    }

    /** The device read returns; its result becomes the buffer's length, even a negative one. */
    method ReadDevice(ret: int, content: seq<byte>)
      requires Valid() && Enabled(view, DeviceRead(ret, content))
      modifies this, area, buffList
      ensures Valid() && view == Step(old(view), DeviceRead(ret, content))
    {
      StepInv(view, DeviceRead(ret, content));
      HeldInRange(view);
      var bufIndex := reader.i;
      ghost var next := AfterDeviceRead(view, ret, content);
      DeviceWrites(bufIndex, content);
      SetLength(bufIndex, ret, next.halves, view.lengths);
      reader := if buffList[bufIndex].length < 0 then RExit([bufIndex], false) else RPublish(bufIndex);
      view := next;
    }

    method PublishIndex()
      requires Valid() && Enabled(view, ReaderPublish)
      modifies this
      ensures Valid() && view == Step(old(view), ReaderPublish)
    {
      StepInv(view, ReaderPublish);
      socketIndexPipe := socketIndexPipe + [reader.i];
      reader := RTest;
      view := Step(view, ReaderPublish);
    }

    method FailReader()
      requires Valid() && Enabled(view, ReaderFail)
      modifies this
      ensures Valid() && view == Step(old(view), ReaderFail)
    {
      StepInv(view, ReaderFail);
      reader := RExit(if reader.RPublish? then [reader.i] else [], true);
      view := Step(view, ReaderFail);
    }

    method TestSender()
      requires Valid() && Enabled(view, SenderTest)
      modifies this
      ensures Valid() && view == Step(old(view), SenderTest)
    {
      StepInv(view, SenderTest);
      sender := if stopped then SExit([], 0) else STake;
      view := Step(view, SenderTest);
    }

    /** A taken buffer is sent unless it is empty. */
    method TakeSocketIndex()
      requires Valid() && Enabled(view, SenderTake)
      modifies this
      ensures Valid() && view == Step(old(view), SenderTake)
    {
      StepInv(view, SenderTake);
      HeldInRange(view);
      var bufIndex := socketIndexPipe[0];
      socketIndexPipe := socketIndexPipe[1..];
      sender := if buffList[bufIndex].length > 0 then SSend(bufIndex, 0) else SReturn(bufIndex, 0);
      view := AfterSenderTake(view);
    }

    method PeekHalf(i: nat, off: nat, k: nat) returns (bytes: seq<byte>)
      requires Mapped(area, capity, buffList, view.halves, view.lengths)
      requires i < |buffList| && off + k <= capity
      ensures |view.halves[i]| == capity && bytes == view.halves[i][off..off + k]
    {
      var lo := buffList[i].data;
      assert area[lo + off..lo + off + k] == area[lo..lo + capity][off..off + k];
      bytes := area[lo + off..lo + off + k];
    }

    /** The socket accepts the next k bytes of the sender's buffer. */
    method WriteSocket(k: nat)
      requires Valid() && Enabled(view, SocketWrote(k))
      modifies this
      ensures Valid() && view == Step(old(view), SocketWrote(k))
    {
      StepInv(view, SocketWrote(k));
      HeldInRange(view);
      var bufIndex, off := sender.i, sender.off;
      assert view.lengths[bufIndex] <= view.size;
      var bytes := PeekHalf(bufIndex, off, k);
      socketOut := socketOut + bytes;
      sender := if off + k == buffList[bufIndex].length then SReturn(bufIndex, off + k) else SSend(bufIndex, off + k);
      view := AfterSocketWrote(view, k);
    }

    method ReturnIndex()
      requires Valid() && Enabled(view, SenderReturn)
      modifies this
      ensures Valid() && view == Step(old(view), SenderReturn)
    {
      StepInv(view, SenderReturn);
      dmaIndexPipe := dmaIndexPipe + [sender.i];
      sender := STest;
      view := AfterSenderReturn(view);
    }

    method FailSender()
      requires Valid() && Enabled(view, SenderFail)
      modifies this
      ensures Valid() && view == Step(old(view), SenderFail)
    {
      StepInv(view, SenderFail);
      sender := if sender == STake then SExit([], 0) else SExit([sender.i], sender.off);
      view := Step(view, SenderFail);
    }

    method Perform(e: Event)
      requires Valid() && Enabled(view, e)
      modifies this, area, buffList
      ensures Valid() && view == Step(old(view), e)
    {
      match e {
        case Stop =>
          StepInv(view, e);
          stopped := true;
          view := Step(view, e);
        case DmaProgress(content) => DeviceProgress(content);
        case DeviceRead(ret, content) => ReadDevice(ret, content);
        case SocketWrote(k) => WriteSocket(k);
        case ReaderAgain =>
        case SenderAgain =>
        case ReaderTest => TestReader();
        case ReaderTake => TakeDmaIndex();
        case ReaderFail => FailReader();
        case ReaderPublish => PublishIndex();
        case SenderTest => TestSender();
        case SenderTake => TakeSocketIndex();
        case SenderFail => FailSender();
        case SenderReturn => ReturnIndex();
      }
    }

    /** Any interleaving of the two threads. What reached the socket is a prefix of what the device delivered. */
    method Run(evs: seq<Event>)
      requires Valid() && Feasible(view, evs)
      modifies this, area, buffList
      ensures Valid() && old(view.Inv() && Feasible(view, evs)) && view == Exec(old(view), evs)
      ensures old(Init(view)) ==> socketOut <= Flatten(Delivered(evs))
    {
      var k := 0;
      while k < |evs|
        invariant 0 <= k <= |evs|
        invariant Valid() && Feasible(view, evs[k..])
        invariant Exec(view, evs[k..]) == Exec(old(view), evs)
      {
        StepInv(view, evs[k]);
        assert evs[k..][1..] == evs[k + 1..];
        Perform(evs[k]);
        k := k + 1;
      }
      if old(Init(view)) {
        StreamIntegrity(old(view), evs);
      }
    }
  }

  /** The child process as the server starts it: two halves of the largest DMA transfer. */
  method CreateChild() returns (child: Child)
    ensures fresh(child) && child.Valid() && Init(child.view)
    ensures child.capity == 0x400000 && child.dmaIndexPipe == [0, 1] && child.socketIndexPipe == []
  {
    child := new Child(2, MAX_DMA_LENGTH);
    assert child.view.dmaPipe == [0, 1];
  }
}
