/**
  Both threads of the command and status server as one interleaved step system.
  They share one parameter record: when the status thread gives up on the socket it
  clears the descriptor in that record, and the command thread meets the cleared
  descriptor the next time it starts a `readn`.
 */
module Bridge {
  import opened Bytes
  import opened CmdFrames
  import opened CmdServer

  /** Where the command thread is. The descriptor is read when a `readn` is called
      (`CallLen`, `CallBody`); a call under way keeps the one it was given. */
  datatype Cmd =
    | CTest
    | CallLen
    | InLen
    | CallBody(len: byte)
    | InBody(len: byte, body: seq<byte>)
    | Forwarding(frame: seq<byte>, sent: nat)
    | CExit(atEnd: bool)             // left its loop; `atEnd`: because the stream was over

  datatype Status =
    | STest
    | SRead
    | CallSend(data: seq<byte>)
    | Sending(data: seq<byte>, sent: nat)
    | SExit

  datatype Event =
    | Stop
    | CmdLocal                       // test of the status word, or the call of a readn
    | CmdMoved(k: nat)               // a system call of the command thread moves k bytes
    | CmdAgain                       // EINTR or EAGAIN
    | CmdFail                        // any other error
    | StatusLocal                    // test of the status word, or the call of writen
    | DeviceData(data: seq<byte>)    // the device read returns data
    | DeviceNone                     // it returns 0, or EINTR or EAGAIN
    | DeviceFail
    | SocketMoved(k: nat)
    | SocketAgain
    | SocketFail

  /** `inbound` is all the peer will ever send and `pos` how much of it was read;
      `devOut`, `drained` and `sockOut` are what the device received, what was read
      from the device, and what the socket accepted. */
  datatype State = State(
    stopped: bool,
    sockOpen: bool,
    cmd: Cmd,
    status: Status,
    inbound: seq<byte>,
    pos: nat,
    devOut: seq<byte>,
    drained: seq<seq<byte>>,
    sockOut: seq<byte>)

  predicate Init(s: State) {
    && !s.stopped && s.sockOpen
    && s.cmd == CTest && s.status == STest
    && s.pos == 0 && s.devOut == [] && s.drained == [] && s.sockOut == []
  }

  /** How many bytes the command thread's pending system call may move at most. */
  function CmdRoom(s: State): nat {
    match s.cmd
    case InLen => 1
    case InBody(len, body) => if |body| <= len as int then len as int - |body| else 0
    case Forwarding(frame, sent) => if sent <= |frame| then |frame| - sent else 0
    case _ => 0
  }

  predicate Enabled(s: State, e: Event) {
    match e
    case Stop => true
    case CmdLocal => s.cmd.CTest? || s.cmd.CallLen? || s.cmd.CallBody?
    case CmdMoved(k) =>
      && (s.cmd.InLen? || s.cmd.InBody? || s.cmd.Forwarding?)
      && k <= CmdRoom(s)
      && (!s.cmd.Forwarding? ==> s.pos + k <= |s.inbound|)
    case CmdAgain => s.cmd.InLen? || s.cmd.InBody? || s.cmd.Forwarding?
    case CmdFail => s.cmd.InLen? || s.cmd.InBody? || s.cmd.Forwarding?
    case StatusLocal => s.status.STest? || s.status.CallSend?
    case DeviceData(data) => s.status.SRead? && 0 < |data| <= MAX_READ_LEN_ONCE
    case DeviceNone => s.status.SRead?
    case DeviceFail => s.status.SRead?
    case SocketMoved(k) => s.status.Sending? && s.status.sent + k <= |s.status.data|
    case SocketAgain => s.status.Sending?
    case SocketFail => s.status.Sending?
  }

  /** Where the command thread goes with that much of the body: a complete frame is
      forwarded, unless the reset branch takes it. */
  function AfterBody(len: byte, body: seq<byte>): Cmd {
    if |body| != len as int then InBody(len, body)
    else if TakesReset([len] + body) then CTest
    else Forwarding([len] + body, 0)
  }

  function ReadLen(s: State): State
    requires s.pos < |s.inbound|
  {
    var len := s.inbound[s.pos];
    s.(cmd := if len < 1 then CTest else CallBody(len), pos := s.pos + 1)
  }

  function ReadBody(s: State, len: byte, body: seq<byte>, k: nat): State
    requires s.pos + k <= |s.inbound|
  {
    s.(cmd := AfterBody(len, body + s.inbound[s.pos..s.pos + k]), pos := s.pos + k)
  }

  function ForwardMore(s: State, frame: seq<byte>, sent: nat, k: nat): State
    requires sent + k <= |frame|
  {
    s.(cmd := if sent + k == |frame| then CTest else Forwarding(frame, sent + k),
       devOut := s.devOut + frame[sent..sent + k])
  }

  /** A system call of the command thread returns k. A return of 0 ends a read (end
      of the stream) as well as a write, and each makes the thread leave its loop. */
  function AfterCmdMoved(s: State, k: nat): State
    requires Enabled(s, CmdMoved(k))
  {
    if k == 0 then s.(cmd := CExit(!s.cmd.Forwarding? && s.pos == |s.inbound|))
    else
      match s.cmd
      case InLen => ReadLen(s)
      case InBody(len, body) => ReadBody(s, len, body, k)
      case Forwarding(frame, sent) => ForwardMore(s, frame, sent, k)
      case _ => s
  }

  function AfterCmdLocal(s: State): State {
    match s.cmd
    case CTest => s.(cmd := if s.stopped then CExit(false) else CallLen)
    case CallLen => s.(cmd := if s.sockOpen then InLen else CExit(false))
    case CallBody(len) => s.(cmd := if s.sockOpen then InBody(len, []) else CExit(false))
    case _ => s
  }

  function AfterStatusLocal(s: State): State {
    match s.status
    case STest => s.(status := if s.stopped then SExit else SRead)
    case CallSend(data) => if s.sockOpen then s.(status := Sending(data, 0)) else s.(status := STest, sockOpen := false)
    case _ => s
  }

  /** A write on the socket returns k; 0 is a failure. */
  function AfterSocketMoved(s: State, k: nat): State
    requires Enabled(s, SocketMoved(k))
  {
    var data, sent := s.status.data, s.status.sent;
    if k == 0 then s.(status := STest, sockOpen := false)
    else s.(status := if sent + k == |data| then STest else Sending(data, sent + k),
            sockOut := s.sockOut + data[sent..sent + k])
  }

  function Step(s: State, e: Event): State
    requires Enabled(s, e)
  {
    match e
    case Stop => s.(stopped := true)
    case CmdLocal => AfterCmdLocal(s)
    case CmdMoved(k) => AfterCmdMoved(s, k)
    case CmdAgain => s
    case CmdFail => s.(cmd := CExit(false))
    case StatusLocal => AfterStatusLocal(s)
    case DeviceData(data) => s.(status := CallSend(data), drained := s.drained + [data])
    case DeviceNone => s.(status := STest)
    case DeviceFail => s.(status := SExit)
    case SocketMoved(k) => AfterSocketMoved(s, k)
    case SocketAgain => s
    case SocketFail => s.(status := STest, sockOpen := false)
  }

  predicate Feasible(s: State, evs: seq<Event>)
    decreases |evs|
  {
    evs == [] || (Enabled(s, evs[0]) && Feasible(Step(s, evs[0]), evs[1..]))
  }

  function Exec(s: State, evs: seq<Event>): State
    requires Feasible(s, evs)
    decreases |evs|
  {
    if evs == [] then s else Exec(Step(s, evs[0]), evs[1..])
  }

  // ---- Commands ------------------------------------------------------------------------------

  /** What the device should have received once the aligned stream `a` was read. */
  function Wanted(a: seq<byte>): seq<byte> {
    Flatten(Decode(a))
  }

  /** The bytes of the frame the command thread is in the middle of. */
  function Partial(cmd: Cmd): seq<byte> {
    match cmd
    case CallBody(len) => [len]
    case InBody(len, body) => [len] + body
    case Forwarding(frame, _) => frame
    case _ => []
  }

  /** How much of that frame the device has received. */
  function PartialSent(cmd: Cmd): nat {
    match cmd
    case Forwarding(_, sent) => sent
    case _ => 0
  }

  predicate PlaceOk(cmd: Cmd) {
    match cmd
    case CallBody(len) => len > 0
    case InBody(len, body) => |body| < len as int
    case Forwarding(frame, sent) => IsFrame(frame) && sent < |frame|
    case _ => true
  }

  /** Of the stream up to `pos` the last bytes are the frame under way; what comes
      before is aligned; and the device has received the frames before it and the
      first `sent` bytes of it. */
  predicate Upto(inbound: seq<byte>, pos: nat, frame: seq<byte>, sent: nat, devOut: seq<byte>) {
    && |frame| <= pos <= |inbound| && sent <= |frame|
    && inbound[pos - |frame|..pos] == frame
    && Aligned(inbound[..pos - |frame|])
    && devOut == Wanted(inbound[..pos - |frame|]) + frame[..sent]
  }

  predicate CmdInv(s: State) {
    && s.pos <= |s.inbound| && PlaceOk(s.cmd)
    && if s.cmd.CExit? then
         && s.devOut <= Wanted(s.inbound)
         && (s.cmd.atEnd ==> s.pos == |s.inbound| && s.devOut == Wanted(s.inbound))
       else Upto(s.inbound, s.pos, Partial(s.cmd), PartialSent(s.cmd), s.devOut)
  }

  lemma UptoGrow(inbound: seq<byte>, pos: nat, frame: seq<byte>, k: nat, devOut: seq<byte>)
    requires Upto(inbound, pos, frame, 0, devOut) && pos + k <= |inbound|
    ensures Upto(inbound, pos + k, frame + inbound[pos..pos + k], 0, devOut)
  {
    var base := pos - |frame|;
    assert inbound[base..pos + k] == inbound[base..pos] + inbound[pos..pos + k];
  }

  lemma UptoSent(inbound: seq<byte>, pos: nat, frame: seq<byte>, sent: nat, k: nat, devOut: seq<byte>)
    requires Upto(inbound, pos, frame, sent, devOut) && sent + k <= |frame|
    ensures Upto(inbound, pos, frame, sent + k, devOut + frame[sent..sent + k])
  {
    var done := Wanted(inbound[..pos - |frame|]);
    assert frame[..sent + k] == frame[..sent] + frame[sent..sent + k];
    Assoc(done, frame[..sent], frame[sent..sent + k]);
  }

  /** A frame completely forwarded joins the aligned part. */
  lemma UptoDone(inbound: seq<byte>, pos: nat, frame: seq<byte>, devOut: seq<byte>)
    requires IsFrame(frame) && Upto(inbound, pos, frame, |frame|, devOut)
    ensures Upto(inbound, pos, [], 0, devOut)
  {
    var done := inbound[..pos - |frame|];
    assert inbound[..pos] == done + frame;
    DecodeSnoc(done, frame);
    FlattenSnoc(Decode(done), frame);
    assert frame[..|frame|] == frame;
  }

  lemma UptoEmpty(inbound: seq<byte>, pos: nat, devOut: seq<byte>)
    requires Upto(inbound, pos, [0], 0, devOut)
    ensures Upto(inbound, pos, [], 0, devOut)
  {
    assert inbound[..pos] == inbound[..pos - 1] + [0];
    DecodeEmptyHeader(inbound[..pos - 1]);
  }

  /** The stream was read to its end and the command thread has no frame on its way. */
  predicate AllRead(s: State) {
    s.pos == |s.inbound| && !s.cmd.Forwarding? && (s.cmd.CExit? ==> s.cmd.atEnd)
  }

  /** Whatever the command thread has got through to, it is a prefix of what the whole
      stream calls for, and all of it once the stream is read. */
  lemma DevOutIsPrefix(s: State)
    requires CmdInv(s)
    ensures s.devOut <= Wanted(s.inbound)
    ensures AllRead(s) ==> s.devOut == Wanted(s.inbound)
  {
    if !s.cmd.CExit? {
      var base := s.pos - |Partial(s.cmd)|;
      var done, frame, rest := s.inbound[..base], s.inbound[base..s.pos], s.inbound[s.pos..];
      assert s.inbound == done + frame + rest;
      if s.cmd.Forwarding? {
        FrameForwarded(s.inbound, done, frame, rest, s.cmd.sent);
      } else {
        assert s.inbound == done + s.inbound[base..];
        ForwardMonotone(done, s.inbound[base..]);
        if s.pos == |s.inbound| {
          DecodePartial(done, frame);
          assert s.inbound == done + frame;
        }
      }
    }
  }

  lemma UptoByte(inbound: seq<byte>, pos: nat, devOut: seq<byte>)
    requires Upto(inbound, pos, [], 0, devOut) && pos < |inbound|
    ensures Upto(inbound, pos + 1, [inbound[pos]], 0, devOut)
    ensures inbound[pos] == 0 ==> Upto(inbound, pos + 1, [], 0, devOut)
  {
    var frame := [inbound[pos]];
    assert [] + inbound[pos..pos + 1] == frame;
    UptoGrow(inbound, pos, [], 1, devOut);
    if inbound[pos] == 0 {
      UptoEmpty(inbound, pos + 1, devOut);
    }
  }

  lemma ReadLenInv(s: State)
    requires CmdInv(s) && s.cmd.InLen? && s.pos < |s.inbound|
    ensures CmdInv(ReadLen(s))
  {
    UptoByte(s.inbound, s.pos, s.devOut);
  }

  lemma AfterBodyOk(len: byte, body: seq<byte>)
    requires 0 < |body| <= len as int
    ensures var cmd := AfterBody(len, body);
            PlaceOk(cmd) && !cmd.CExit? && Partial(cmd) == [len] + body && PartialSent(cmd) == 0
  {
    if |body| == len as int {
      ResetNeverRecognised([len] + body);
    }
  }

  lemma ReadBodyInv(s: State, len: byte, body: seq<byte>, k: nat)
    requires CmdInv(s) && s.cmd == InBody(len, body) && 0 < k <= len as int - |body| && s.pos + k <= |s.inbound|
    ensures CmdInv(ReadBody(s, len, body, k))
  {
    var t, chunk := ReadBody(s, len, body, k), s.inbound[s.pos..s.pos + k];
    assert Upto(s.inbound, s.pos + k, [len] + (body + chunk), 0, s.devOut) by {
      UptoGrow(s.inbound, s.pos, [len] + body, k, s.devOut);
      Assoc([len], body, chunk);
    }
    assert t.cmd == AfterBody(len, body + chunk);
    AfterBodyOk(len, body + chunk);
  }

  lemma ForwardMoreInv(s: State, frame: seq<byte>, sent: nat, k: nat)
    requires CmdInv(s) && s.cmd == Forwarding(frame, sent) && 0 < k <= |frame| - sent
    ensures CmdInv(ForwardMore(s, frame, sent, k))
  {
    var t := ForwardMore(s, frame, sent, k);
    assert Upto(s.inbound, s.pos, frame, sent + k, t.devOut) by {
      UptoSent(s.inbound, s.pos, frame, sent, k, s.devOut);
    }
    if sent + k == |frame| {
      UptoDone(s.inbound, s.pos, frame, t.devOut);
      assert t.cmd == CTest;
    } else {
      assert t.cmd == Forwarding(frame, sent + k);
    }
  }

  lemma CmdLocalInv(s: State)
    requires CmdInv(s)
    ensures CmdInv(AfterCmdLocal(s))
  {
    DevOutIsPrefix(s);
    match s.cmd
    case CallBody(len) => assert [len] + [] == [len];
    case _ =>
  }

  lemma CmdStepInv(s: State, e: Event)
    requires CmdInv(s) && Enabled(s, e)
    ensures CmdInv(Step(s, e))
  {
    DevOutIsPrefix(s);
    match e
    case CmdMoved(k) =>
      if k > 0 {
        match s.cmd
        case InLen => ReadLenInv(s);
        case InBody(len, body) => ReadBodyInv(s, len, body, k);
        case Forwarding(frame, sent) => ForwardMoreInv(s, frame, sent, k);
        case _ =>
      }
    case CmdLocal => CmdLocalInv(s);
    case StatusLocal =>
      assert CmdInv(AfterStatusLocal(s));
    case SocketMoved(k) =>
      assert CmdInv(AfterSocketMoved(s, k));
    case _ =>
  }

  // ---- Status data ---------------------------------------------------------------------------

  /** Drained data the status thread has in hand but the socket has not accepted. */
  function InHand(s: State): seq<byte> {
    match s.status
    case CallSend(data) => data
    case Sending(data, sent) => if sent <= |data| then data[sent..] else []
    case _ => []
  }

  /** As long as the descriptor is open no drained byte is missing; afterwards what
      the socket accepted stays a prefix of the drained data. */
  predicate StatusInv(s: State) {
    && (s.status.Sending? ==> s.sockOpen && s.status.sent < |s.status.data|)
    && (s.status.CallSend? ==> |s.status.data| > 0)
    && s.sockOut <= Flatten(s.drained)
    && (s.sockOpen ==> s.sockOut + InHand(s) == Flatten(s.drained))
  }

  lemma StatusStepInv(s: State, e: Event)
    requires StatusInv(s) && Enabled(s, e)
    ensures StatusInv(Step(s, e))
  {
    match e
    case DeviceData(data) =>
      FlattenSnoc(s.drained, data);
    case SocketMoved(k) =>
      if k > 0 { SocketMovedInv(s, k); }
    case CmdMoved(k) =>
      assert StatusInv(AfterCmdMoved(s, k));
    case _ =>
  }

  lemma SendMore(out: seq<byte>, data: seq<byte>, sent: nat, k: nat, all: seq<byte>)
    requires sent + k <= |data| && out + data[sent..] == all
    ensures out + data[sent..sent + k] <= all
    ensures out + data[sent..sent + k] + data[sent + k..] == all
  {
    assert data[sent..] == data[sent..sent + k] + data[sent + k..];
    Assoc(out, data[sent..sent + k], data[sent + k..]);
  }

  lemma SocketMovedInv(s: State, k: nat)
    requires StatusInv(s) && k > 0 && Enabled(s, SocketMoved(k))
    ensures StatusInv(AfterSocketMoved(s, k))
  {
    var t := AfterSocketMoved(s, k);
    var data, sent := s.status.data, s.status.sent;
    SendMore(s.sockOut, data, sent, k, Flatten(s.drained));
    if sent + k == |data| {
      assert t.status == STest && InHand(t) == [] == data[sent + k..];
    } else {
      assert t.status == Sending(data, sent + k) && InHand(t) == data[sent + k..];
    }
  }

  // ---- Whole runs ------------------------------------------------------------------------------

  lemma InitInv(s: State)
    requires Init(s)
    ensures CmdInv(s) && StatusInv(s)
  {
    assert s.inbound[..0] == [];
  }

  lemma {:induction false} RunInv(s: State, evs: seq<Event>)
    requires CmdInv(s) && StatusInv(s) && Feasible(s, evs)
    ensures CmdInv(Exec(s, evs)) && StatusInv(Exec(s, evs))
    ensures Exec(s, evs).inbound == s.inbound
    decreases |evs|
  {
    if evs != [] {
      CmdStepInv(s, evs[0]);
      StatusStepInv(s, evs[0]);
      SameInbound(s, evs[0]);
      RunInv(Step(s, evs[0]), evs[1..]);
    }
  }

  lemma SameInbound(s: State, e: Event)
    requires Enabled(s, e)
    ensures Step(s, e).inbound == s.inbound
  {
  }

  /** The chunks the device read returned during a run. */
  function DrainedBy(evs: seq<Event>): seq<seq<byte>> {
    if evs == [] then [] else (if evs[0].DeviceData? then [evs[0].data] else []) + DrainedBy(evs[1..])
  }

  lemma DrainedStep(s: State, e: Event)
    requires Enabled(s, e)
    ensures Step(s, e).drained == s.drained + (if e.DeviceData? then [e.data] else [])
  {
  }

  lemma {:induction false} DrainedRun(s: State, evs: seq<Event>)
    requires Feasible(s, evs)
    ensures Exec(s, evs).drained == s.drained + DrainedBy(evs)
    decreases |evs|
  {
    if evs != [] {
      DrainedStep(s, evs[0]);
      DrainedRun(Step(s, evs[0]), evs[1..]);
    }
  }

  /** Both directions at once, over every interleaving: the device gets a prefix of the
      peer's complete non-empty frames, however the reads cut the stream and whatever
      the status thread does to the shared descriptor, and all of them if the stream
      was read to its end; these are the intended bytes if and only if no frame is the
      reset frame; the peer gets a prefix of the device's data, and every byte of it but
      those in hand while the descriptor is open. */
  lemma {:induction false} BridgeForwards(s: State, evs: seq<Event>)
    requires Init(s) && Feasible(s, evs)
    ensures var t := Exec(s, evs);
            && t.devOut <= Flatten(Decode(s.inbound))
            && (AllRead(t) ==> t.devOut == Flatten(Decode(s.inbound)))
            && (AllRead(t) ==> (t.devOut == Output(s.inbound, AsMeant()) <==> RESET_FRAME !in Decode(s.inbound)))
            && t.sockOut <= Flatten(DrainedBy(evs))
            && (t.sockOpen ==> t.sockOut + InHand(t) == Flatten(DrainedBy(evs)))
  {
    InitInv(s);
    RunInv(s, evs);
    DrainedRun(s, evs);
    assert s.drained + DrainedBy(evs) == DrainedBy(evs);
    DevOutIsPrefix(Exec(s, evs));
    ResetExact(s.inbound);
  }

  /** The only ways out of the two loops, and the only ways the shared descriptor is cleared. */
  lemma ExitReasons(s: State, e: Event)
    requires StatusInv(s) && Enabled(s, e)
    ensures !s.cmd.CExit? ==>
              (Step(s, e).cmd.CExit? <==>
               e.CmdFail? || e == CmdMoved(0) || (e.CmdLocal? && if s.cmd.CTest? then s.stopped else !s.sockOpen))
    ensures !s.status.SExit? ==>
              (Step(s, e).status.SExit? <==> e.DeviceFail? || (e.StatusLocal? && s.status.STest? && s.stopped))
    ensures s.sockOpen ==> (!Step(s, e).sockOpen <==> e.SocketFail? || e == SocketMoved(0))
    ensures Step(s, e).stopped <==> s.stopped || e == Stop
  {
  }

  // ---- Runs in which nothing fails ---------------------------------------------------------------

  /** The environment neither stops the server nor fails a call of the command thread
      or a send: a call of the command thread returns 0 only on a read at the end of the
      stream. Splitting, interrupting and interleaving are unrestricted. */
  predicate Benign(s: State, e: Event) {
    && !e.Stop? && !e.CmdFail? && !e.SocketFail? && e != SocketMoved(0)
    && (e == CmdMoved(0) ==> !s.cmd.Forwarding? && s.pos == |s.inbound|)
  }

  predicate BenignRun(s: State, evs: seq<Event>)
    requires Feasible(s, evs)
    decreases |evs|
  {
    evs == [] || (Benign(s, evs[0]) && BenignRun(Step(s, evs[0]), evs[1..]))
  }

  /** Steps of the command thread other than retries. */
  function CmdSteps(evs: seq<Event>): nat {
    if evs == [] then 0 else (if evs[0].CmdLocal? || evs[0].CmdMoved? then 1 else 0) + CmdSteps(evs[1..])
  }

  /** How many of those the command thread can still make at most: four per unread
      byte, and what its present place needs. */
  function StepsLeft(cmd: Cmd, unread: int): int {
    match cmd
    case CTest => 4 * unread + 3
    case CallLen => 4 * unread + 2
    case InLen => 4 * unread + 1
    case CallBody(len) => 1 + BodyStepsLeft(len, 0, unread)
    case InBody(len, body) => BodyStepsLeft(len, |body|, unread)
    case Forwarding(frame, sent) => |frame| - sent + 4 * unread + 3
    case CExit(_) => 0
  }

  function BodyStepsLeft(len: byte, got: nat, unread: int): int {
    var missing := len as int - got;
    if unread >= missing then 4 * (unread - missing) + missing + len as int + 4 else unread + 1
  }

  function Left(s: State): int {
    StepsLeft(s.cmd, |s.inbound| - s.pos)
  }

  lemma BenignLocal(s: State)
    requires CmdInv(s) && s.sockOpen && !s.stopped && Enabled(s, CmdLocal)
    ensures !AfterCmdLocal(s).cmd.CExit? && Left(AfterCmdLocal(s)) < Left(s)
  {
  }

  lemma BenignMoved(s: State, k: nat)
    requires CmdInv(s) && Enabled(s, CmdMoved(k)) && Benign(s, CmdMoved(k))
    ensures var t := AfterCmdMoved(s, k); (t.cmd.CExit? ==> t.cmd.atEnd) && Left(t) < Left(s)
  {
    if k > 0 && s.cmd.InBody? {
      AfterBodyOk(s.cmd.len, s.cmd.body + s.inbound[s.pos..s.pos + k]);
    }
  }

  /** The states of a benign run: nothing has failed, and the command thread can only
      have left its loop because the stream was over. */
  predicate Unharmed(s: State) {
    && CmdInv(s) && StatusInv(s)
    && s.sockOpen && !s.stopped
    && (s.cmd.CExit? ==> s.cmd.atEnd)
  }

  lemma OtherStep(s: State, e: Event)
    requires Enabled(s, e) && !e.CmdLocal? && !e.CmdMoved? && !e.CmdFail?
    ensures var t := Step(s, e); t.cmd == s.cmd && t.pos == s.pos && t.inbound == s.inbound
  {
  }

  lemma BenignCount(s: State, e: Event)
    requires Unharmed(s) && Enabled(s, e) && Benign(s, e)
    ensures Step(s, e).cmd.CExit? ==> Step(s, e).cmd.atEnd
    ensures Left(Step(s, e)) + (if e.CmdLocal? || e.CmdMoved? then 1 else 0) <= Left(s)
  {
    match e
    case CmdLocal => BenignLocal(s);
    case CmdMoved(k) => BenignMoved(s, k);
    case _ => OtherStep(s, e);
  }

  lemma BenignStep(s: State, e: Event)
    requires Unharmed(s) && Enabled(s, e) && Benign(s, e)
    ensures Unharmed(Step(s, e))
  {
    CmdStepInv(s, e);
    StatusStepInv(s, e);
    BenignCount(s, e);
    ExitReasons(s, e);
  }

  lemma {:induction false} BenignRunInv(s: State, evs: seq<Event>)
    requires Unharmed(s) && Feasible(s, evs) && BenignRun(s, evs)
    ensures Unharmed(Exec(s, evs)) && Left(Exec(s, evs)) + CmdSteps(evs) <= Left(s)
    decreases |evs|
  {
    if evs != [] {
      BenignStep(s, evs[0]);
      BenignCount(s, evs[0]);
      BenignRunInv(Step(s, evs[0]), evs[1..]);
    }
  }

  lemma StepsLeftPositive(s: State)
    requires CmdInv(s) && !s.cmd.CExit?
    ensures Left(s) > 0
  {
  }

  /** When nothing fails and no stop comes the command thread leaves its loop only at
      the end of the stream, with every complete frame forwarded, and it does so after
      at most four steps per byte and three more, however its calls are cut up,
      interrupted and interleaved with the status thread's. */
  lemma {:induction false} BenignRunDelivers(s: State, evs: seq<Event>)
    requires Init(s) && Feasible(s, evs) && BenignRun(s, evs)
    ensures var t := Exec(s, evs);
            && (t.cmd.CExit? ==> AllRead(t) && t.devOut == Flatten(Decode(s.inbound)))
            && CmdSteps(evs) + (if t.cmd.CExit? then 0 else 1) <= 4 * |s.inbound| + 3
            && t.sockOut + InHand(t) == Flatten(DrainedBy(evs))
  {
    InitInv(s);
    BenignRunInv(s, evs);
    BridgeForwards(s, evs);
    var t := Exec(s, evs);
    if !t.cmd.CExit? {
      StepsLeftPositive(t);
    }
  }

  /** Until then it is never stuck: a step of its own that nothing fails is possible. */
  lemma BenignCanMove(s: State) returns (e: Event)
    requires Unharmed(s) && !s.cmd.CExit?
    ensures Enabled(s, e) && Benign(s, e) && (e.CmdLocal? || e.CmdMoved?)
  {
    if s.cmd.Forwarding? {
      e := CmdMoved(1);
    } else if s.cmd.InLen? || s.cmd.InBody? {
      e := CmdMoved(if s.pos < |s.inbound| then 1 else 0);
    } else {
      e := CmdLocal;
    }
  }

  /** The stream has been dealt with: read to its end, or left by a run without failures. */
  predicate Finished(s: State, evs: seq<Event>)
    requires Feasible(s, evs)
  {
    AllRead(Exec(s, evs)) || (BenignRun(s, evs) && Exec(s, evs).cmd.CExit?)
  }

  /** Two runs over the same stream, cut up, interrupted and interleaved each in its
      own way, leave the same bytes on the device. */
  lemma {:induction false} SegmentationIndependence(s1: State, evs1: seq<Event>, s2: State, evs2: seq<Event>)
    requires Init(s1) && Init(s2) && s1.inbound == s2.inbound
    requires Feasible(s1, evs1) && Feasible(s2, evs2)
    requires Finished(s1, evs1) && Finished(s2, evs2)
    ensures Exec(s1, evs1).devOut == Exec(s2, evs2).devOut == Flatten(Decode(s1.inbound))
  {
    FinishedDelivers(s1, evs1);
    FinishedDelivers(s2, evs2);
  }

  lemma {:induction false} FinishedDelivers(s: State, evs: seq<Event>)
    requires Init(s) && Feasible(s, evs) && Finished(s, evs)
    ensures Exec(s, evs).devOut == Flatten(Decode(s.inbound))
  {
    BridgeForwards(s, evs);
    if BenignRun(s, evs) && Exec(s, evs).cmd.CExit? {
      BenignRunDelivers(s, evs);
    }
  }

  /** The command thread's three steps from the length byte of a reset frame to forwarding it. */
  lemma ResetFrameRead(s: State)
    requires s.sockOpen && s.cmd == InLen && s.pos == 0 && s.inbound == RESET_FRAME
    ensures var t := AfterCmdMoved(s, 1);
            && t == s.(cmd := CallBody(10), pos := 1)
            && AfterCmdLocal(t) == s.(cmd := InBody(10, []), pos := 1)
            && AfterCmdMoved(AfterCmdLocal(t), 10) == s.(cmd := Forwarding(RESET_FRAME, 0), pos := 11)
  {
    assert [10 as byte] + ([] + RESET_FRAME[1..11]) == RESET_FRAME;
    ResetNeverRecognised(RESET_FRAME);
  }

  /** A run in which the peer sends the reset frame and the device receives it. */
  lemma ResetFrameReachesDevice(s: State) returns (evs: seq<Event>)
    requires Init(s) && s.inbound == RESET_FRAME
    ensures Feasible(s, evs) && BenignRun(s, evs) && AllRead(Exec(s, evs))
    ensures Exec(s, evs).devOut == RESET_FRAME && Output(s.inbound, AsMeant()) == []
  {
    ResetFrameIsForwarded();
    var s1 := s.(cmd := CallLen);
    var s2 := s.(cmd := InLen);
    var s3 := s.(cmd := CallBody(10), pos := 1);
    var s4 := s.(cmd := InBody(10, []), pos := 1);
    var s5 := s.(cmd := Forwarding(RESET_FRAME, 0), pos := 11);
    ResetFrameRead(s2);
    evs := [];
    BenignCons(s5, CmdMoved(11), evs);
    evs := [CmdMoved(11)] + evs;
    BenignCons(s4, CmdMoved(10), evs);
    evs := [CmdMoved(10)] + evs;
    BenignCons(s3, CmdLocal, evs);
    evs := [CmdLocal] + evs;
    BenignCons(s2, CmdMoved(1), evs);
    evs := [CmdMoved(1)] + evs;
    BenignCons(s1, CmdLocal, evs);
    evs := [CmdLocal] + evs;
    BenignCons(s, CmdLocal, evs);
    evs := [CmdLocal] + evs;
  }

  lemma RunCons(s: State, e: Event, evs: seq<Event>)
    requires Enabled(s, e) && Feasible(Step(s, e), evs)
    ensures Feasible(s, [e] + evs) && Exec(s, [e] + evs) == Exec(Step(s, e), evs)
  {
    assert ([e] + evs)[1..] == evs;
  }

  lemma BenignCons(s: State, e: Event, evs: seq<Event>)
    requires Enabled(s, e) && Benign(s, e) && Feasible(Step(s, e), evs) && BenignRun(Step(s, e), evs)
    ensures Feasible(s, [e] + evs) && BenignRun(s, [e] + evs) && Exec(s, [e] + evs) == Exec(Step(s, e), evs)
  {
    RunCons(s, e, evs);
    assert ([e] + evs)[1..] == evs;
  }

  // ---- Shutdown through the shared descriptor -----------------------------------------------------

  /** Frames whose forwarding begins in a step. */
  function Begins(s: State, e: Event): nat
    requires Enabled(s, e)
  {
    if !s.cmd.Forwarding? && Step(s, e).cmd.Forwarding? then 1 else 0
  }

  function FramesBegun(s: State, evs: seq<Event>): nat
    requires Feasible(s, evs)
    decreases |evs|
  {
    if evs == [] then 0 else Begins(s, evs[0]) + FramesBegun(Step(s, evs[0]), evs[1..])
  }

  /** Only a `readn` of a frame body that is already under way can still complete a frame. */
  function FramesLeftClosed(s: State): nat {
    if s.cmd.InBody? then 1 else 0
  }

  lemma ClosedStep(s: State, e: Event)
    requires StatusInv(s) && !s.sockOpen && Enabled(s, e)
    ensures !Step(s, e).sockOpen && Step(s, e).sockOut == s.sockOut
    ensures Begins(s, e) + FramesLeftClosed(Step(s, e)) <= FramesLeftClosed(s)
  {
  }

  /** Once the descriptor is cleared it stays cleared, not one more byte reaches the
      socket, and the command thread begins at most one more frame, and only if it was
      already reading that frame's body. */
  lemma {:induction false} ClosedForGood(s: State, evs: seq<Event>)
    requires StatusInv(s) && !s.sockOpen && Feasible(s, evs)
    ensures !Exec(s, evs).sockOpen && Exec(s, evs).sockOut == s.sockOut
    ensures FramesBegun(s, evs) + FramesLeftClosed(Exec(s, evs)) <= FramesLeftClosed(s)
    decreases |evs|
  {
    if evs != [] {
      ClosedStep(s, evs[0]);
      StatusStepInv(s, evs[0]);
      ClosedForGood(Step(s, evs[0]), evs[1..]);
    }
  }

  lemma RunOfOne(s: State, e: Event)
    requires Enabled(s, e)
    ensures Feasible(s, [e]) && Exec(s, [e]) == Step(s, e)
  {
    assert [e][1..] == [];
    assert Feasible(Step(s, e), []);
  }

  /** Meanwhile the device is drained on: within two steps of its own the status
      thread, still in its loop and not told to stop, is back at a read of the device
      that any data can complete. */
  lemma {:induction false} DrainingContinues(s: State, data: seq<byte>) returns (evs: seq<Event>)
    requires StatusInv(s) && !s.sockOpen && !s.stopped && !s.status.SExit? && 0 < |data| <= MAX_READ_LEN_ONCE
    ensures |evs| <= 3 && Feasible(s, evs) && Exec(s, evs).drained == s.drained + [data]
  {
    var atRead := if s.status.SRead? then s
                  else if s.status.STest? then Step(s, StatusLocal)
                  else Step(Step(s, StatusLocal), StatusLocal);
    evs := [DeviceData(data)];
    RunOfOne(atRead, DeviceData(data));
    if s.status.CallSend? {
      RunCons(Step(s, StatusLocal), StatusLocal, evs);
      evs := [StatusLocal] + evs;
    }
    if !s.status.SRead? {
      RunCons(s, StatusLocal, evs);
      evs := [StatusLocal] + evs;
    }
  }

  // ---- Every round has a test of the status word ---------------------------------------------------

  /** Tests of the status word that the command thread passes. */
  function CmdTests(s: State, evs: seq<Event>): nat
    requires Feasible(s, evs)
    decreases |evs|
  {
    if evs == [] then 0
    else (if s.cmd.CTest? && evs[0].CmdLocal? && !s.stopped then 1 else 0) + CmdTests(Step(s, evs[0]), evs[1..])
  }

  /** Length bytes it reads, those of empty headers included. */
  function Headers(s: State, evs: seq<Event>): nat
    requires Feasible(s, evs)
    decreases |evs|
  {
    if evs == [] then 0
    else (if s.cmd.InLen? && evs[0].CmdMoved? && evs[0].k > 0 then 1 else 0) + Headers(Step(s, evs[0]), evs[1..])
  }

  /** Past the test, its length byte not read yet. */
  function BeforeHeader(s: State): nat {
    if s.cmd.CallLen? || s.cmd.InLen? then 1 else 0
  }

  /** Tests of the status word that the status thread passes. */
  function StatusTests(s: State, evs: seq<Event>): nat
    requires Feasible(s, evs)
    decreases |evs|
  {
    if evs == [] then 0
    else
      (if s.status.STest? && evs[0].StatusLocal? && !s.stopped then 1 else 0) + StatusTests(Step(s, evs[0]), evs[1..])
  }

  /** Returns of the device read, with data, without, or failed. */
  function DeviceReturns(evs: seq<Event>): nat {
    if evs == [] then 0
    else (if evs[0].DeviceData? || evs[0].DeviceNone? || evs[0].DeviceFail? then 1 else 0) + DeviceReturns(evs[1..])
  }

  /** At the device read. */
  function AtRead(s: State): nat {
    if s.status.SRead? then 1 else 0
  }

  /** Over any run: each length byte is read after a test of its own, and unless the
      thread left its loop a test is passed for nothing else; and the device read
      returns exactly once for every test of the status thread. */
  lemma {:induction false} EveryRoundIsTested(s: State, evs: seq<Event>)
    requires Feasible(s, evs)
    ensures var t := Exec(s, evs);
            && Headers(s, evs) + BeforeHeader(t) <= CmdTests(s, evs) + BeforeHeader(s)
            && (!t.cmd.CExit? ==> Headers(s, evs) + BeforeHeader(t) == CmdTests(s, evs) + BeforeHeader(s))
            && DeviceReturns(evs) + AtRead(t) == StatusTests(s, evs) + AtRead(s)
            && (s.cmd.CExit? ==> t.cmd.CExit? && CmdTests(s, evs) == 0)
    decreases |evs|
  {
    if evs != [] {
      EveryRoundIsTested(Step(s, evs[0]), evs[1..]);
    }
  }

  /** A stopped server passes no more test. */
  lemma {:induction false} StoppedPassesNoTest(s: State, evs: seq<Event>)
    requires s.stopped && Feasible(s, evs)
    ensures CmdTests(s, evs) == 0 && StatusTests(s, evs) == 0
    decreases |evs|
  {
    if evs != [] {
      StoppedPassesNoTest(Step(s, evs[0]), evs[1..]);
    }
  }

  function FramesLeftStopped(s: State): nat {
    if s.cmd.CallLen? || s.cmd.InLen? || s.cmd.CallBody? || s.cmd.InBody? then 1 else 0
  }

  lemma StopStep(s: State, e: Event)
    requires s.stopped && Enabled(s, e)
    ensures Step(s, e).stopped
    ensures Begins(s, e) + FramesLeftStopped(Step(s, e)) <= FramesLeftStopped(s)
  {
  }

  /** After Stop at most one more length byte is read, even of an empty header, one more
      frame begun, and the device read returns at most once more, with or without data;
      each only if the thread was already past its test of the status word. */
  lemma {:induction false} StopBound(s: State, evs: seq<Event>)
    requires s.stopped && Feasible(s, evs)
    ensures Exec(s, evs).stopped
    ensures Headers(s, evs) + BeforeHeader(Exec(s, evs)) <= BeforeHeader(s)
    ensures FramesBegun(s, evs) + FramesLeftStopped(Exec(s, evs)) <= FramesLeftStopped(s)
    ensures DeviceReturns(evs) + AtRead(Exec(s, evs)) == AtRead(s)
    decreases |evs|
  {
    EveryRoundIsTested(s, evs);
    StoppedPassesNoTest(s, evs);
    if evs != [] {
      StopStep(s, evs[0]);
      StopBound(Step(s, evs[0]), evs[1..]);
    }
  }
}
