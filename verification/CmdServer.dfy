/** The loops of the command and status server, each thread on its own against an
    adversarial kernel. `Bridge` has both threads together. */
module CmdServer {
  import opened Bytes
  import opened Transfer
  import opened CmdFrames

  const MAX_WRITE_LEN_ONCE: nat := 0x1000
  const CACHE_SIZE: nat := 512

  /** Writes to the device in chunks of at most 0x1000 bytes. The result is len
      exactly when the device received all of it; otherwise it counts whole chunks,
      and the device received those and less than one chunk more. */
  method WritenToCmdStatusDev(fd: int, dev: Sink, data: array<byte>, len: int)
    returns (ret: int, ghost writeCalls: seq<Event>)
    requires len <= data.Length
    modifies dev
    ensures len <= 0 ==> ret == len && dev.received == old(dev.received)
    ensures |old(dev.received)| <= |dev.received| <= |old(dev.received)| + data.Length
    ensures dev.received == old(dev.received) + data[..|dev.received| - |old(dev.received)|]
    ensures len > 0 ==>
              var sent := |dev.received| - |old(dev.received)|;
              && 0 <= ret <= sent <= len
              && (ret == len <==> sent == len)
              && (ret < len ==> ret % 0x1000 == 0 && sent < ret + 0x1000)
    ensures fd < 0 && len > 0 ==> ret == 0 && dev.received == old(dev.received)
    ensures dev.largest <= old(dev.largest) || dev.largest <= 0x1000
    ensures old(dev.script) == writeCalls + dev.script
    ensures fd >= 0 ==> if ret == len then Smooth(writeCalls) else UpToFailure(writeCalls)
    ensures fd < 0 ==> writeCalls == []
  {
    var leftLen := len;
    writeCalls := [];
    while leftLen > 0
      invariant len > 0 ==> 0 <= leftLen <= len
      invariant len <= 0 ==> leftLen == len
      invariant leftLen > 0 ==> (len - leftLen) % MAX_WRITE_LEN_ONCE == 0
      invariant dev.received == old(dev.received) + data[..len - leftLen]
      invariant fd < 0 ==> leftLen == len && writeCalls == []
      invariant dev.largest <= old(dev.largest) || dev.largest <= MAX_WRITE_LEN_ONCE
      invariant old(dev.script) == writeCalls + dev.script && Smooth(writeCalls)
    {
      var writeLen := if leftLen > MAX_WRITE_LEN_ONCE then MAX_WRITE_LEN_ONCE else leftLen;
      ghost var done := len - leftLen;
      var r, used := Writen(fd, dev, data, len - leftLen, writeLen);
      ghost var sent := |dev.received| - |old(dev.received)| - done;
      assert data[..done] + data[done..done + sent] == data[..done + sent];
      TransferAfter(writeCalls, used, dev.script);
      writeCalls := writeCalls + used;
      if r != writeLen {
        return len - leftLen, writeCalls;
      }
      leftLen := leftLen - r;
    }
    return len, writeCalls;
  }

  /** Appending a frame, or its first bytes, keeps what was forwarded a prefix of what the stream calls for. */
  lemma {:induction false} FrameForwarded(stream: seq<byte>, done: seq<byte>, frame: seq<byte>, rest: seq<byte>,
                                          sent: nat)
    requires stream == done + frame + rest && Aligned(done) && IsFrame(frame) && sent <= |frame|
    ensures Flatten(Decode(done)) + frame[..sent] <= Flatten(Decode(stream))
    ensures Aligned(done + frame) && Flatten(Decode(done + frame)) == Flatten(Decode(done)) + frame
    ensures Flatten(Decode(done + frame)) <= Flatten(Decode(stream))
  {
    DecodeSnoc(done, frame);
    FlattenSnoc(Decode(done), frame);
    ForwardMonotone(done + frame, rest);
    assert Flatten(Decode(done)) + frame[..sent] <= Flatten(Decode(done)) + frame;
  }

  /** The two reads of one round of the command thread. A positive result is the
      length byte of a complete frame, now at the start of the cache with nothing
      stale in it; 0 is an empty header; -1 means that one of the reads fell short.
      `earlier` are the calls made on the socket since `script` began. */
  method ReadFrame(socket: Source, cmdCache: array<byte>, ghost script: seq<Event>, ghost earlier: seq<Event>)
    returns (len: int, ghost taken: seq<byte>, ghost readCalls: seq<Event>)
    requires cmdCache.Length == CACHE_SIZE
    requires script == earlier + socket.script && Smooth(earlier)
    modifies socket, cmdCache
    ensures old(socket.pending) == taken + socket.pending
    ensures -1 <= len <= 255
    ensures len == 0 ==> taken == [0]
    ensures len > 0 ==> IsFrame(taken) && |taken| == len + 1 && cmdCache[..len + 1] == taken
    ensures len < 0 ==> taken == [] || (taken[0] > 0 && |taken| <= taken[0] as int)
    ensures script == readCalls + socket.script
    ensures Smooth(readCalls) || UpToFailure(readCalls)
    ensures len >= 0 ==> Smooth(readCalls)
    ensures len < 0 && Smooth(readCalls) ==> socket.pending == []
  {
    var r, head, used := Readn(socket, cmdCache, 0, 1);
    TransferAfter(earlier, used, socket.script);
    taken, readCalls := head, earlier + used;
    if r != 1 {
      return -1, taken, readCalls;
    }
    if cmdCache[0] < 1 {
      return 0, taken, readCalls;
    }
    var n := cmdCache[0] as nat;
    ghost var body;
    r, body, used := Readn(socket, cmdCache, 1, n);
    TransferAfter(readCalls, used, socket.script);
    taken, readCalls := head + body, readCalls + used;
    if r != n {
      return -1, taken, readCalls;
    }
    assert cmdCache[..n + 1] == taken;
    return n, taken, readCalls;
  }

  /** `got` is `start` followed by a prefix of `limit`. */
  predicate Between(start: seq<byte>, got: seq<byte>, limit: seq<byte>) {
    start <= got <= start + limit
  }

  lemma BetweenPrefix(start: seq<byte>, a: seq<byte>, limit: seq<byte>)
    requires a <= limit
    ensures Between(start, start + a, limit)
  {
  }

  /** The command thread at its test of the status word: of the stream it has read
      `taken`, all of it forwarded, and with `left` more tests to pass it will read what is `due`. */
  predicate AtTest(stream: seq<byte>, due: seq<byte>, taken: seq<byte>, rest: seq<byte>, left: nat,
                   start: seq<byte>, got: seq<byte>) {
    && stream == taken + rest && Aligned(taken) && due == taken + FirstRounds(rest, left)
    && got == start + Flatten(Decode(taken))
  }

  /** What holds when it leaves its loop: nothing but what is due was read and sent. */
  predicate Within(due: seq<byte>, taken: seq<byte>, start: seq<byte>, got: seq<byte>) {
    taken <= due && Between(start, got, Flatten(Decode(due)))
  }

  /** Nothing of what is due is missing. */
  predicate Complete(due: seq<byte>, taken: seq<byte>, start: seq<byte>, got: seq<byte>) {
    taken == due && got == start + Flatten(Decode(due))
  }

  lemma AtTestWithin(stream: seq<byte>, due: seq<byte>, taken: seq<byte>, rest: seq<byte>, left: nat,
                     start: seq<byte>, got: seq<byte>)
    requires AtTest(stream, due, taken, rest, left, start, got)
    ensures Within(due, taken, start, got)
    ensures left == 0 ==> Complete(due, taken, start, got)
  {
    ForwardMonotone(taken, FirstRounds(rest, left));
    BetweenPrefix(start, Flatten(Decode(taken)), Flatten(Decode(due)));
  }

  /** All frames of the stream were sent, and they are what was meant if and only if none is the reset frame. */
  predicate WholeStream(stream: seq<byte>, start: seq<byte>, got: seq<byte>) {
    && got == start + Flatten(Decode(stream))
    && (got == start + Output(stream, AsMeant()) <==> RESET_FRAME !in Decode(stream))
  }

  lemma CompleteStream(stream: seq<byte>, n: nat, taken: seq<byte>, rest: seq<byte>, start: seq<byte>, got: seq<byte>)
    requires stream == taken + rest
    ensures n >= |stream| && Complete(FirstRounds(stream, n), taken, start, got) ==>
              WholeStream(stream, start, got) && rest == []
    ensures 0 == Resets(Decode(stream), AsMeant()) <==> RESET_FRAME !in Decode(stream)
  {
    FirstRoundsPrefix(stream, n);
    ResetExact(stream);
    WrittenForwardsAll(stream);
    AppendCancel(start, Flatten(Decode(stream)), Output(stream, AsMeant()));
  }

  /** A round that is cut short stays within what is due, and is all of it at the end of the stream. */
  lemma CutShort(stream: seq<byte>, due: seq<byte>, taken: seq<byte>, before: seq<byte>, tail: seq<byte>,
                 rest: seq<byte>, left: nat, start: seq<byte>, got: seq<byte>)
    requires left > 0 && AtTest(stream, due, taken, before, left, start, got) && before == tail + rest
    requires tail == [] || (tail[0] > 0 && |tail| <= tail[0] as int)
    ensures stream == taken + tail + rest && Within(due, taken + tail, start, got)
    ensures rest == [] ==> Complete(due, taken + tail, start, got)
  {
    AtTestWithin(stream, due, taken, before, left, start, got);
    Assoc(taken, tail, rest);
    if rest == [] {
      assert before == tail;
      LastRound(tail, left);
      DecodePartial(taken, tail);
    } else if tail != [] {
      assert before[0] == tail[0] && Round(before) >= |tail|;
      assert before[..Round(before)][..|tail|] == tail;
    }
  }

  /** A round that reads an empty header, or a frame that is then forwarded, leads back to the test. */
  lemma RoundDone(stream: seq<byte>, due: seq<byte>, taken: seq<byte>, before: seq<byte>, round: seq<byte>,
                  rest: seq<byte>, left: nat, start: seq<byte>, got: seq<byte>, more: seq<byte>)
    requires left > 0 && AtTest(stream, due, taken, before, left, start, got) && before == round + rest
    requires if more == [] then round == [0] else IsFrame(round) && more == round
    ensures due == taken + round + FirstRounds(rest, left - 1)
    ensures AtTest(stream, due, taken + round, rest, left - 1, start, got + more)
    ensures Within(due, taken + round, start, got + more)
    ensures left == 1 ==> Complete(due, taken + round, start, got + more)
  {
    NextRound(before, round, rest, left);
    Assoc(taken, round, FirstRounds(rest, left - 1));
    Assoc(taken, round, rest);
    if more == [] {
      DecodeEmptyHeader(taken);
      assert got + more == got;
    } else {
      DecodeSnoc(taken, round);
      FlattenSnoc(Decode(taken), round);
      Assoc(start, Flatten(Decode(taken)), round);
    }
    AtTestWithin(stream, due, taken + round, rest, left - 1, start, got + more);
  }

  /** Passes a complete frame on to the device, behind the frames of `done`. */
  method ForwardFrame(devFd: int, dev: Sink, cmdCache: array<byte>, len: nat,
                      ghost start: seq<byte>, ghost done: seq<byte>, ghost frame: seq<byte>, ghost rest: seq<byte>,
                      ghost script: seq<Event>, ghost earlier: seq<Event>)
    returns (ok: bool, ghost writeCalls: seq<Event>)
    requires cmdCache.Length == CACHE_SIZE && len <= 255
    requires Aligned(done) && IsFrame(frame) && |frame| == len + 1 && cmdCache[..len + 1] == frame
    requires dev.received == start + Flatten(Decode(done))
    requires script == earlier + dev.script && Smooth(earlier)
    modifies dev
    ensures Within(done + frame + rest, done + frame, start, dev.received)
    ensures ok ==> dev.received == old(dev.received) + frame
    ensures script == writeCalls + dev.script
    ensures if ok then Smooth(writeCalls) else devFd < 0 || (UpToFailure(writeCalls) && !Smooth(writeCalls))
    ensures devFd < 0 ==> !ok && writeCalls == earlier
  {
    var w;
    w, writeCalls := WritenToCmdStatusDev(devFd, dev, cmdCache, len + 1);
    TransferAfter(earlier, writeCalls, dev.script);
    writeCalls := earlier + writeCalls;
    ghost var sent := |dev.received| - |old(dev.received)|;
    FrameForwarded(done + frame + rest, done, frame, rest, sent);
    Assoc(start, Flatten(Decode(done)), frame[..sent]);
    assert cmdCache[..sent] == frame[..sent];
    BetweenPrefix(start, Flatten(Decode(done)) + frame[..sent], Flatten(Decode(done + frame + rest)));
    assert sent == len + 1 ==> frame[..sent] == frame;
    ok := w == len + 1;
  }

  /** One round of the command thread's loop; `go` is false when the thread breaks out of
      it. It does what `left` tests ahead call for: see `AtTest`. */
  method CommandRound(socket: Source, devFd: int, dev: Sink, cmdCache: array<byte>,
                      ghost stream: seq<byte>, ghost due: seq<byte>, ghost before: seq<byte>, ghost left: nat,
                      ghost start: seq<byte>,
                      ghost readScript: seq<Event>, ghost earlierReads: seq<Event>,
                      ghost writeScript: seq<Event>, ghost earlierWrites: seq<Event>)
    returns (go: bool, reset: bool, ghost taken: seq<byte>, ghost readCalls: seq<Event>, ghost writeCalls: seq<Event>)
    requires cmdCache.Length == CACHE_SIZE
    requires left > 0 && AtTest(stream, due, before, socket.pending, left, start, dev.received)
    requires readScript == earlierReads + socket.script && Smooth(earlierReads)
    requires writeScript == earlierWrites + dev.script && Smooth(earlierWrites)
    modifies socket, dev, cmdCache
    ensures stream == taken + socket.pending && Within(due, taken, start, dev.received) && !reset
    ensures readScript == readCalls + socket.script && writeScript == writeCalls + dev.script
    ensures (Smooth(readCalls) || UpToFailure(readCalls)) && (Smooth(writeCalls) || UpToFailure(writeCalls))
    ensures go ==> Smooth(readCalls) && Smooth(writeCalls)
    ensures go ==> AtTest(stream, due, taken, socket.pending, left - 1, start, dev.received)
    ensures (!go && devFd >= 0 && Smooth(readCalls) && Smooth(writeCalls)) || (go && left == 1) ==>
              Complete(due, taken, start, dev.received)
  {
    ghost var pending, got := socket.pending, dev.received;
    reset, writeCalls := false, earlierWrites;
    var len: int;
    ghost var round;
    len, round, readCalls := ReadFrame(socket, cmdCache, readScript, earlierReads);
    taken := before + round;
    if len < 0 {
      CutShort(stream, due, before, pending, round, socket.pending, left, start, got);
      go := false;
    } else if len == 0 {
      RoundDone(stream, due, before, pending, round, socket.pending, left, start, got, []);
      assert got + [] == dev.received;
      go := true;
    } else {
      RoundDone(stream, due, before, pending, round, socket.pending, left, start, got, round);
      ResetNeverRecognised(round);
      reset := cmdCache[0] == 0x0a && TakesReset(cmdCache[..len + 1]);
      go := true;
      if !reset {
        go, writeCalls := ForwardFrame(devFd, dev, cmdCache, len, start, before, round,
                                       FirstRounds(socket.pending, left - 1), writeScript, earlierWrites);
      }
    }
  }

  /** The command thread. Whatever happens it reads at most the first `stopAfter` rounds
      of the stream, and the device receives a prefix of their complete non-empty
      frames; it receives them all unless a call fails, and then that call is the last
      one of its kind: how `read` cuts up the stream does not matter. With no stop and
      no failure the bytes and the resets are the intended ones if and only if the peer
      sends no reset frame.
      `stopAfter` is how often the status word is tested before it says Stop. */
  method ReadNetCmdThread(socket: Source, devFd: int, dev: Sink, stopAfter: nat)
    returns (resets: int, ghost taken: seq<byte>, ghost readCalls: seq<Event>, ghost writeCalls: seq<Event>)
    modifies socket, dev
    ensures old(socket.pending) == taken + socket.pending
    ensures old(socket.script) == readCalls + socket.script && old(dev.script) == writeCalls + dev.script
    ensures (Smooth(readCalls) || UpToFailure(readCalls)) && (Smooth(writeCalls) || UpToFailure(writeCalls))
    ensures var due := FirstRounds(old(socket.pending), stopAfter);
            && Within(due, taken, old(dev.received), dev.received)
            && (devFd >= 0 && Smooth(readCalls) && Smooth(writeCalls) ==>
                  Complete(due, taken, old(dev.received), dev.received))
    ensures devFd >= 0 && Smooth(readCalls) && Smooth(writeCalls) && stopAfter >= |old(socket.pending)| ==>
              && WholeStream(old(socket.pending), old(dev.received), dev.received) && socket.pending == []
    ensures resets == 0
    ensures resets == Resets(Decode(old(socket.pending)), AsMeant()) <==> RESET_FRAME !in Decode(old(socket.pending))
  {
    ghost var stream, readScript, writeScript := socket.pending, socket.script, dev.script;
    ghost var start, due := dev.received, FirstRounds(stream, stopAfter);
    AtTestWithin(stream, due, [], stream, stopAfter, start, start);
    var cmdCache := new byte[CACHE_SIZE](_ => 0);
    resets := 0;
    taken, readCalls, writeCalls := [], [], [];
    var tests := 0;
    ghost var left := stopAfter;
    while tests < stopAfter
      invariant left == stopAfter - tests && resets == 0 && cmdCache.Length == CACHE_SIZE
      invariant readScript == readCalls + socket.script && Smooth(readCalls)
      invariant writeScript == writeCalls + dev.script && Smooth(writeCalls)
      invariant AtTest(stream, due, taken, socket.pending, left, start, dev.received)
      invariant Within(due, taken, start, dev.received)
      invariant left == 0 ==> Complete(due, taken, start, dev.received)
    {
      var go, reset;
      go, reset, taken, readCalls, writeCalls :=
        CommandRound(socket, devFd, dev, cmdCache, stream, due, taken, left, start,
                     readScript, readCalls, writeScript, writeCalls);
      tests, left := tests + 1, left - 1;
      resets := if reset then resets + 1 else resets;
      if !go {
        break;
      }
    }
    CompleteStream(stream, stopAfter, taken, socket.pending, start, dev.received);
  }

  // ---- Status --------------------------------------------------------------------------------

  /** What one read of the status device can deliver. */
  type StatusChunk = c: seq<byte> | 0 < |c| <= MAX_READ_LEN_ONCE witness [0]

  const MAX_READ_LEN_ONCE: nat := 0x1000

  datatype StatusRead = Data(chunk: StatusChunk) | NoData | ReadError(errno: Errno)

  /** The results of the coming reads of the status device. */
  class StatusDevice {
    var script: seq<StatusRead>

    constructor (script: seq<StatusRead>)
      ensures this.script == script
    {
      this.script := script;
    }
  }

  /** The record both threads of the command server share. */
  class CmdStatusRWThreadParams {
    var socketFd: int

    constructor (socketFd: int)
      ensures this.socketFd == socketFd
    {
      this.socketFd := socketFd;
    }
  }

  /** The data delivered by a sequence of reads. */
  function Drained(results: seq<StatusRead>): seq<seq<byte>> {
    if results == [] then [] else (if results[0].Data? then [results[0].chunk] else []) + Drained(results[1..])
  }

  lemma {:induction false} DrainedSnoc(results: seq<StatusRead>, r: StatusRead)
    ensures Flatten(Drained(results + [r])) == Flatten(Drained(results)) + (if r.Data? then r.chunk else [])
  {
    if results == [] {
      assert [r][1..] == [];
      if r.Data? { FlattenSingle(r.chunk); }
    } else {
      DrainedSnoc(results[1..], r);
      assert (results + [r])[1..] == results[1..] + [r];
      var first := if results[0].Data? then [results[0].chunk] else [];
      FlattenConcat(first, Drained(results[1..]));
      FlattenConcat(first, Drained(results[1..] + [r]));
    }
  }

  predicate HardError(r: StatusRead) {
    r == ReadError(EOther)
  }

  /** Sends one chunk; a failed send clears the shared descriptor, a cleared descriptor sends nothing. */
  method SendStatus(params: CmdStatusRWThreadParams, socket: Sink, statusBuf: array<byte>, readRet: nat)
    requires 0 < readRet <= statusBuf.Length
    modifies params, socket
    ensures old(params.socketFd) < 0 ==> params.socketFd < 0 && socket.received == old(socket.received)
    ensures params.socketFd == -1 || (params.socketFd == old(params.socketFd) && params.socketFd >= 0)
    ensures Between(old(socket.received), socket.received, statusBuf[..readRet])
    ensures params.socketFd >= 0 ==> socket.received == old(socket.received) + statusBuf[..readRet]
    ensures Smooth(old(socket.script)) && old(params.socketFd) >= 0 ==>
              Smooth(socket.script) && params.socketFd == old(params.socketFd)
  {
    var w, used := Writen(params.socketFd, socket, statusBuf, 0, readRet);
    ghost var sent := |socket.received| - |old(socket.received)|;
    BetweenPrefix(old(socket.received), statusBuf[..sent], statusBuf[..readRet]);
    if w != readRet {
      params.socketFd := -1;
    }
  }

  lemma BetweenGrow(start: seq<byte>, got: seq<byte>, limit: seq<byte>, more: seq<byte>)
    requires Between(start, got, limit)
    ensures Between(start, got, limit + more)
  {
    Assoc(start, limit, more);
  }

  lemma BetweenNext(start: seq<byte>, got: seq<byte>, limit: seq<byte>, more: seq<byte>)
    requires Between(start + limit, got, more)
    ensures Between(start, got, limit + more)
  {
    Assoc(start, limit, more);
  }

  /** The status thread. What reaches the socket is a prefix of the data read from
      the device, and all of it unless a send failed; after that nothing more is
      sent, yet the device is drained on until Stop or a hard error: one read for every
      test of the status word that does not say Stop. */
  method SendStatusDataThread(params: CmdStatusRWThreadParams, dev: StatusDevice, socket: Sink, stopAfter: nat)
    returns (ghost results: seq<StatusRead>)
    modifies params, dev, socket
    ensures old(dev.script) == results + dev.script && |results| <= stopAfter
    ensures Between(old(socket.received), socket.received, Flatten(Drained(results)))
    ensures params.socketFd >= 0 ==> socket.received == old(socket.received) + Flatten(Drained(results))
    ensures old(params.socketFd) < 0 ==> socket.received == old(socket.received)
    ensures Smooth(old(socket.script)) && old(params.socketFd) >= 0 ==> params.socketFd >= 0
    ensures dev.script == [] || |results| == stopAfter || (results != [] && HardError(results[|results| - 1]))
    ensures forall i :: 0 <= i < |results| - 1 ==> !HardError(results[i])
  {
    var statusBuf := new byte[MAX_READ_LEN_ONCE];
    var tests := 0;
    results := [];
    ghost var start := socket.received;
    while tests < stopAfter && dev.script != []
      invariant old(dev.script) == results + dev.script && |results| == tests <= stopAfter
      invariant Between(start, socket.received, Flatten(Drained(results)))
      invariant params.socketFd >= 0 ==> socket.received == start + Flatten(Drained(results))
      invariant old(params.socketFd) < 0 ==> params.socketFd < 0 && socket.received == start
      invariant Smooth(old(socket.script)) && old(params.socketFd) >= 0 ==>
                  params.socketFd >= 0 && Smooth(socket.script)
      invariant forall i :: 0 <= i < |results| ==> !HardError(results[i])
    {
      tests := tests + 1;
      var r := dev.script[0];
      dev.script := dev.script[1..];
      DrainedSnoc(results, r);
      ghost var limit := Flatten(Drained(results));
      results := results + [r];
      match r {
        case NoData =>
        case Data(chunk) =>
          forall i | 0 <= i < |chunk| {
            statusBuf[i] := chunk[i];
          }
          assert statusBuf[..|chunk|] == chunk;
          ghost var fd, before := params.socketFd, socket.received;
          SendStatus(params, socket, statusBuf, |chunk|);
          if fd >= 0 {
            BetweenNext(start, socket.received, limit, chunk);
            Assoc(start, limit, chunk);
          } else {
            BetweenGrow(start, socket.received, limit, chunk);
          }
        case ReadError(errno) =>
          if errno == EINTR || errno == EAGAIN {
            continue;
          } else {
            break;
          }
      }
    }
  }
}
