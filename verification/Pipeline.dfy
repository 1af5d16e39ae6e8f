/**
  The two-thread acquisition pipeline of the child process as an interleaved
  step system. The reader thread fills buffers from the DMA device, the sender
  thread writes them to the socket, and the right to touch a buffer travels as a
  one-byte index through two pipes. Every system call of either thread is one
  step, and the environment picks each call's result.

  The number of buffers (two in the program) and their size are parameters.
 */
module Pipeline {
  import opened Bytes

  /** Where the reader thread is, with the index it holds. */
  datatype Reader =
    | RTest                                 // about to test the status word
    | RTake                                 // reading one index from the dma pipe
    | RFill(i: nat)                         // the device read into buffer i is under way
    | RPublish(i: nat)                      // writing index i to the socket pipe
    | RExit(held: seq<nat>, filled: bool)   // left its loop; `filled`: the held buffer got its chunk

  /** Where the sender thread is; `off` counts the bytes of buffer i already written. */
  datatype Sender =
    | STest
    | STake
    | SSend(i: nat, off: nat)
    | SReturn(i: nat, off: nat)
    | SExit(held: seq<nat>, off: nat)

  datatype Event =
    | Stop                                        // SIGINT
    | ReaderTest
    | ReaderTake
    | ReaderAgain                                 // EINTR or EAGAIN on an index pipe
    | ReaderFail                                  // any other failure on an index pipe
    | DmaProgress(content: seq<byte>)             // the device writes into the half while read is pending
    | DeviceRead(ret: int, content: seq<byte>)    // the device read returns
    | ReaderPublish
    | SenderTest
    | SenderTake
    | SenderAgain
    | SenderFail                                  // any other failure on an index pipe or the socket
    | SocketWrote(k: nat)                         // write on the socket accepts k bytes
    | SenderReturn

  /** `chunks` (what the device delivered), `out` (what the socket accepted) and
      `returned` (how many indices were given back) are the history of the run so far. */
  datatype State = State(
    size: nat,
    halves: seq<seq<byte>>,
    lengths: seq<int>,
    dmaPipe: seq<nat>,
    sockPipe: seq<nat>,
    reader: Reader,
    sender: Sender,
    stopped: bool,
    chunks: seq<seq<byte>>,
    out: seq<byte>,
    returned: nat)
  {
    /** The number of buffers. */
    function N(): nat { |lengths| }

    function ReaderHolds(): seq<nat> {
      match reader
      case RFill(i) => [i]
      case RPublish(i) => [i]
      case RExit(held, _) => held
      case _ => []
    }

    function SenderHolds(): seq<nat> {
      match sender
      case SSend(i, _) => [i]
      case SReturn(i, _) => [i]
      case SExit(held, _) => held
      case _ => []
    }

    /** All indices, in the order in which they come round: the sender's, the
        queued ones, the reader's, the free ones. */
    function Ring(): seq<nat> {
      SenderHolds() + sockPipe + ReaderHolds() + dmaPipe
    }

    /** The reader's index once its buffer holds a chunk that is not yet queued. */
    function ReaderFilled(): seq<nat> {
      match reader
      case RPublish(i) => [i]
      case RExit(held, filled) => if filled then held else []
      case _ => []
    }

    /** The indices whose buffers hold chunks on their way to the socket, oldest first. */
    function Queue(): seq<nat> {
      SenderHolds() + sockPipe + ReaderFilled()
    }

    /** How much of the oldest chunk the socket has accepted. */
    function Offset(): nat {
      match sender
      case SSend(_, off) => off
      case SReturn(_, off) => off
      case SExit(_, off) => off
      case _ => 0
    }

    predicate BuffersOk() {
      && N() > 0
      && |halves| == |lengths|
      && (forall i :: 0 <= i < |halves| ==> |halves[i]| == size)
      && (forall i :: 0 <= i < |lengths| ==> lengths[i] <= size)
    }

    /** What each thread's place in its loop says about the buffer it holds. */
    predicate PlacesOk() {
      && (reader.RExit? ==> |reader.held| <= 1)
      && (sender.SSend? ==> sender.i < N() && sender.off < lengths[sender.i])
      && (sender.SReturn? ==> sender.off == |Content(halves, lengths, sender.i)|)
      && (sender.SExit? ==> |sender.held| <= 1)
      && (SenderHolds() == [] ==> Offset() == 0)
    }

    /** Buffers are well formed; the ring is the initial ring turned by one place
        per returned index; every queued buffer holds the chunk the device
        delivered in its turn; the socket has accepted exactly the returned chunks
        and `Offset()` bytes of the next one. */
    predicate Inv() {
      && BuffersOk()
      && PlacesOk()
      && Ring() == Rotation(N(), returned)
      && QueueHolds(Queue(), halves, lengths, chunks, returned)
      && OutIs(out, chunks, returned, Offset())
    }
  }

  /** The bytes buffer i holds for the sender. */
  function Content(halves: seq<seq<byte>>, lengths: seq<int>, i: nat): seq<byte> {
    if i < |lengths| && i < |halves| && 0 < lengths[i] <= |halves[i]| then halves[i][..lengths[i]] else []
  }

  predicate QueueHolds(queue: seq<nat>, halves: seq<seq<byte>>, lengths: seq<int>, chunks: seq<seq<byte>>,
                       returned: nat)
  {
    && |chunks| == returned + |queue|
    && (forall j :: 0 <= j < |queue| ==> Content(halves, lengths, queue[j]) == chunks[returned + j])
  }

  predicate OutIs(out: seq<byte>, chunks: seq<seq<byte>>, returned: nat, off: nat) {
    && returned <= |chunks|
    && if returned < |chunks| then
         off <= |chunks[returned]| && out == Flatten(chunks[..returned]) + chunks[returned][..off]
       else out == Flatten(chunks)
  }

  /** 0, 1, .., n-1 turned left by k places. */
  function Rotation(n: nat, k: nat): seq<nat>
    requires n > 0
  {
    seq(n, j requires 0 <= j => (k + j) % n)
  }

  /** The state the child process is in once both pipes exist and the dma pipe is seeded. */
  predicate Init(s: State) {
    && s.N() > 0
    && |s.halves| == s.N()
    && (forall i :: 0 <= i < |s.halves| ==> |s.halves[i]| == s.size)
    && s.lengths == seq(s.N(), i => 0)
    && s.dmaPipe == seq(s.N(), i requires 0 <= i => i)
    && s.sockPipe == []
    && s.reader == RTest && s.sender == STest
    && !s.stopped
    && s.chunks == [] && s.out == [] && s.returned == 0
  }

  predicate Enabled(s: State, e: Event) {
    match e
    case Stop => true
    case ReaderTest => s.reader == RTest
    case ReaderTake => s.reader == RTake && s.dmaPipe != []
    case ReaderAgain => s.reader == RTake || s.reader.RPublish?
    case ReaderFail => s.reader == RTake || s.reader.RPublish?
    case DmaProgress(content) => s.reader.RFill? && |content| == s.size
    case DeviceRead(ret, content) => s.reader.RFill? && |content| == s.size && ret <= s.size
    case ReaderPublish => s.reader.RPublish?
    case SenderTest => s.sender == STest
    case SenderTake => s.sender == STake && s.sockPipe != []
    case SenderAgain => s.sender == STake || s.sender.SSend? || s.sender.SReturn?
    case SenderFail => s.sender == STake || s.sender.SSend? || s.sender.SReturn?
    case SocketWrote(k) => s.sender.SSend? && s.sender.i < s.N() && 0 < k <= s.lengths[s.sender.i] - s.sender.off
    case SenderReturn => s.sender.SReturn?
  }

  function AfterDma(s: State, content: seq<byte>): State
    requires s.reader.RFill? && s.reader.i < |s.halves|
  {
    s.(halves := s.halves[s.reader.i := content])
  }

  function AfterDeviceRead(s: State, ret: int, content: seq<byte>): State
    requires s.reader.RFill? && s.reader.i < |s.halves| == |s.lengths| && ret <= |content|
  {
    var filled := s.(halves := s.halves[s.reader.i := content], lengths := s.lengths[s.reader.i := ret]);
    if ret < 0 then
      filled.(reader := RExit([s.reader.i], false))
    else
      filled.(reader := RPublish(s.reader.i), chunks := s.chunks + [content[..ret]])
  }

  function AfterSenderTake(s: State): State
    requires s.sockPipe != [] && s.sockPipe[0] < |s.lengths|
  {
    var i := s.sockPipe[0];
    s.(sender := if s.lengths[i] > 0 then SSend(i, 0) else SReturn(i, 0), sockPipe := s.sockPipe[1..])
  }

  function AfterSocketWrote(s: State, k: nat): State
    requires s.sender.SSend? && s.sender.i < |s.halves| == |s.lengths| && s.sender.off + k <= |s.halves[s.sender.i]|
  {
    var i, off := s.sender.i, s.sender.off;
    s.(out := s.out + s.halves[i][off..off + k],
       sender := if off + k == s.lengths[i] then SReturn(i, off + k) else SSend(i, off + k))
  }

  function AfterSenderReturn(s: State): State
    requires s.sender.SReturn?
  {
    s.(sender := STest, dmaPipe := s.dmaPipe + [s.sender.i], returned := s.returned + 1)
  }

  /** One step. The invariant guarantees that every index used on the buffer list is in range. */
  function Step(s: State, e: Event): State
    requires s.Inv() && Enabled(s, e)
  {
    HeldInRange(s);
    match e
    case Stop => s.(stopped := true)
    case ReaderTest => s.(reader := if s.stopped then RExit([], false) else RTake)
    case ReaderTake => s.(reader := RFill(s.dmaPipe[0]), dmaPipe := s.dmaPipe[1..])
    case ReaderAgain => s
    case ReaderFail => s.(reader := RExit(s.ReaderHolds(), true))
    case DmaProgress(content) => AfterDma(s, content)
    case DeviceRead(ret, content) => AfterDeviceRead(s, ret, content)
    case ReaderPublish => s.(reader := RTest, sockPipe := s.sockPipe + [s.reader.i])
    case SenderTest => s.(sender := if s.stopped then SExit([], 0) else STake)
    case SenderTake => AfterSenderTake(s)
    case SenderAgain => s
    case SenderFail => s.(sender := SExit(s.SenderHolds(), s.Offset()))
    case SocketWrote(k) => AfterSocketWrote(s, k)
    case SenderReturn => AfterSenderReturn(s)
  }

  /** Every index in the ring names a buffer. */
  lemma HeldInRange(s: State)
    requires s.N() > 0 && s.Ring() == Rotation(s.N(), s.returned)
    ensures |s.Ring()| == s.N()
    ensures forall i :: i in s.Ring() ==> i < s.N()
    ensures s.reader.RFill? || s.reader.RPublish? ==> s.reader.i < s.N()
    ensures s.sender.SSend? || s.sender.SReturn? ==> s.sender.i < s.N()
    ensures s.sockPipe != [] ==> s.sockPipe[0] < s.N()
    ensures s.dmaPipe != [] ==> s.dmaPipe[0] < s.N()
  {
    var ring := s.Ring();
    assert forall j :: 0 <= j < |ring| ==> ring[j] == (s.returned + j) % s.N();
    if s.reader.RFill? || s.reader.RPublish? {
      assert s.reader.i in s.ReaderHolds() && s.reader.i in ring;
    }
    if s.sender.SSend? || s.sender.SReturn? {
      assert s.sender.i in s.SenderHolds() && s.sender.i in ring;
    }
    if s.sockPipe != [] {
      assert s.sockPipe[0] in ring;
    }
    if s.dmaPipe != [] {
      assert s.dmaPipe[0] in ring;
    }
  }
}
