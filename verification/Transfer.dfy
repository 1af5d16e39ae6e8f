/** The exact-transfer loops of general.c against an adversarial kernel. */
module Transfer {
  import opened Bytes

  datatype Errno = EINTR | EAGAIN | EOther

  /** What one system call does. `Move(k)` moves up to k bytes (fewer when fewer are
      asked for or left); moving none is a return value of 0. */
  datatype Event = Move(k: nat) | Error(errno: Errno)

  predicate IsRetry(e: Event) {
    e == Error(EINTR) || e == Error(EAGAIN)
  }

  /** The kernel interrupts and splits at will but neither fails nor returns 0 early. */
  predicate Smooth(script: seq<Event>) {
    forall i :: 0 <= i < |script| ==> IsRetry(script[i]) || (script[i].Move? && script[i].k > 0)
  }

  function Min(a: nat, b: nat): nat {
    if a < b then a else b
  }

  /** The return value of a call that could move up to n bytes. */
  function Returned(script: seq<Event>, n: nat): int {
    if script == [] then n else if script[0].Error? then -1 else Min(script[0].k, n)
  }

  /** `orig` with `bytes` stored from position `off` on. */
  function Placed(orig: seq<byte>, off: nat, bytes: seq<byte>): seq<byte>
    requires off + |bytes| <= |orig|
  {
    orig[..off] + bytes + orig[off + |bytes|..]
  }

  lemma PlacedTwice(orig: seq<byte>, off: nat, a: seq<byte>, b: seq<byte>)
    requires off + |a| + |b| <= |orig|
    ensures Placed(Placed(orig, off, a), off + |a|, b) == Placed(orig, off, a + b)
  {
  }

  /** A descriptor open for reading: the bytes that will still arrive, and the
      results of the coming calls. When the script is used up, calls move all they can. */
  class Source {
    var pending: seq<byte>
    var script: seq<Event>
    var calls: nat

    constructor (pending: seq<byte>, script: seq<Event>)
      ensures this.pending == pending && this.script == script && calls == 0
    {
      this.pending, this.script, calls := pending, script, 0;
    }

    /** One read. `call` is the script entry it used up, if any was left, and `chunk` what it moved. */
    method Read(buf: array<byte>, off: nat, n: nat)
      returns (ret: int, errno: Errno, ghost call: seq<Event>, ghost chunk: seq<byte>)
      requires off + n <= buf.Length && n > 0
      modifies this, buf
      ensures old(script) == call + script && (old(script) != [] ==> call == [old(script)[0]])
      ensures old(pending) == chunk + pending && |chunk| <= n && buf[..] == Placed(old(buf[..]), off, chunk)
      ensures ret <= 0 ==> pending == old(pending) && buf[..] == old(buf[..])
      ensures if ret < 0 then ret == -1 && chunk == [] && call == [Error(errno)] else ret == |chunk|
      ensures ret > 0 ==> Smooth(call)
      ensures ret == 0 ==> (old(pending) == [] && Smooth(call)) || call == [Move(0)]
      ensures ret == Returned(old(script), Min(n, |old(pending)|)) && calls == old(calls) + 1
    {
      errno, chunk := EOther, [];
      calls := calls + 1;
      call := if script == [] then [] else [script[0]];
      var e := if script == [] then Move(n) else script[0];
      script := if script == [] then [] else script[1..];
      if e.Error? {
        return -1, e.errno, call, chunk;
      }
      ret := Min(e.k, Min(n, |pending|));
      forall i | 0 <= i < ret {
        buf[off + i] := pending[i];
      }
      chunk := pending[..ret];
      pending := pending[ret..];
    }
  }

  /** One read that continues a transfer: `got` is what the transfer has stored from
      position `off` of the buffer's original contents on, and `ptr` is where it goes on. */
  method ReadOn(src: Source, buf: array<byte>, ptr: nat, n: nat,
                ghost stream: seq<byte>, ghost orig: seq<byte>, ghost off: nat, ghost got: seq<byte>)
    returns (ret: int, errno: Errno, ghost call: seq<Event>, ghost more: seq<byte>)
    requires n > 0 && ptr == off + |got| && ptr + n <= buf.Length == |orig|
    requires stream == got + src.pending && buf[..] == Placed(orig, off, got)
    modifies src, buf
    ensures |more| == |got| + (if ret < 0 then 0 else ret) <= |got| + n
    ensures stream == more + src.pending && buf[..] == Placed(orig, off, more)
    ensures |src.pending| == |old(src.pending)| - (if ret < 0 then 0 else ret)
    ensures old(src.script) == call + src.script && (old(src.script) != [] ==> call == [old(src.script)[0]])
    ensures ret < 0 ==> ret == -1 && call == [Error(errno)]
    ensures ret > 0 ==> Smooth(call)
    ensures ret == 0 ==> (src.pending == [] && Smooth(call)) || call == [Move(0)]
    ensures ret == Returned(old(src.script), Min(n, |old(src.pending)|)) && src.calls == old(src.calls) + 1
  {
    ghost var chunk;
    ret, errno, call, chunk := src.Read(buf, ptr, n);
    PlacedTwice(orig, off, got, chunk);
    more := got + chunk;
  }

  /** A descriptor open for writing: what the other side has received, and the largest request made of it. */
  class Sink {
    var received: seq<byte>
    var script: seq<Event>
    var largest: nat
    var calls: nat

    constructor (script: seq<Event>)
      ensures this.script == script && received == [] && largest == 0 && calls == 0
    {
      this.script, received, largest, calls := script, [], 0, 0;
    }

    /** One write. `call` is the script entry it used up, if any was left. */
    method Write(buf: array<byte>, off: nat, n: nat) returns (ret: int, errno: Errno, ghost call: seq<Event>)
      requires off + n <= buf.Length && n > 0
      modifies this
      ensures old(script) == call + script && (old(script) != [] ==> call == [old(script)[0]])
      ensures ret <= 0 ==> received == old(received)
      ensures if ret < 0 then ret == -1 && call == [Error(errno)]
              else ret <= n && received == old(received) + buf[off..off + ret]
      ensures ret > 0 ==> Smooth(call)
      ensures ret == 0 ==> call == [Move(0)]
      ensures ret == Returned(old(script), n) && calls == old(calls) + 1
      ensures largest == if n > old(largest) then n else old(largest)
    {
      errno := EOther;
      calls := calls + 1;
      largest := if n > largest then n else largest;
      call := if script == [] then [] else [script[0]];
      var e := if script == [] then Move(n) else script[0];
      script := if script == [] then [] else script[1..];
      if e.Error? {
        return -1, e.errno, call;
      }
      ret := Min(e.k, n);
      received := received + buf[off..off + ret];
    }
  }

  /** A transfer that went wrong used up some quiet calls and then one that failed for good or returned 0. */
  predicate UpToFailure(used: seq<Event>) {
    && used != []
    && Smooth(used[..|used| - 1])
    && (used[|used| - 1] == Error(EOther) || used[|used| - 1] == Move(0))
  }

  lemma SmoothParts(script: seq<Event>, used: seq<Event>, rest: seq<Event>)
    requires script == used + rest && Smooth(script)
    ensures Smooth(used) && Smooth(rest) && !UpToFailure(used)
  {
    assert forall i :: 0 <= i < |used| ==> used[i] == script[i];
    assert forall i :: 0 <= i < |rest| ==> rest[i] == script[|used| + i];
  }

  lemma NextCall(used: seq<Event>, call: seq<Event>)
    requires Smooth(used)
    ensures Smooth(call) ==> Smooth(used + call)
    ensures call == [Error(EOther)] || call == [Move(0)] ==> UpToFailure(used + call)
  {
    if |call| == 1 {
      assert (used + call)[..|used + call| - 1] == used;
    }
  }

  /** Calls made one transfer after the other: only the last transfer can go wrong. */
  lemma TransferAfter(before: seq<Event>, used: seq<Event>, rest: seq<Event>)
    requires Smooth(before)
    ensures before + used + rest == before + (used + rest)
    ensures Smooth(used) ==> Smooth(before + used)
    ensures UpToFailure(used) ==> UpToFailure(before + used) && !Smooth(before + used)
  {
    if UpToFailure(used) {
      assert (before + used)[..|before + used| - 1] == before + used[..|used| - 1];
    }
  }

  /** Reads exactly n bytes unless the stream ends or a call fails. Whatever happens
      the bytes `got` from the stream are in the buffer, in order, and no other byte
      of the buffer changes. */
  method Readn(src: Source, buf: array<byte>, off: nat, n: nat)
    returns (ret: int, ghost got: seq<byte>, ghost used: seq<Event>)
    requires off + n <= buf.Length
    modifies src, buf
    ensures old(src.pending) == got + src.pending && old(src.script) == used + src.script
    ensures |got| <= n && buf[..] == Placed(old(buf[..]), off, got)
    ensures ret == if |got| < n && UpToFailure(used) && used[|used| - 1].Error? then -1 else |got|
    ensures ret == n ==> Smooth(used)
    ensures if Smooth(used) then ret == n || src.pending == [] else UpToFailure(used)
    ensures ret == -1 ==> UpToFailure(used)
    ensures Smooth(old(src.script)) ==> ret == Min(n, |old(src.pending)|) && Smooth(src.script)
  {
    var nleft := n;
    var ptr := off;
    got, used := [], [];
    while nleft > 0
      invariant |got| == n - nleft == ptr - off
      invariant 0 <= nleft <= n
      invariant old(src.pending) == got + src.pending && old(src.script) == used + src.script
      invariant buf[..] == Placed(old(buf[..]), off, got)
      invariant Smooth(used)
      decreases nleft, |src.script|
    {
      var nread, errno, call, more := ReadOn(src, buf, ptr, nleft, old(src.pending), old(buf[..]), off, got);
      NextCall(used, call);
      used, got := used + call, more;
      if nread < 0 {
        if errno == EINTR || errno == EAGAIN {
          nread := 0;
        } else {
          if Smooth(old(src.script)) { SmoothParts(old(src.script), used, src.script); }
          return -1, got, used;
        }
      } else if nread == 0 {
        break;
      }
      nleft := nleft - nread;
      ptr := ptr + nread;
    }
    if Smooth(old(src.script)) { SmoothParts(old(src.script), used, src.script); }
    ret := n - nleft;
  }

  /** Writes exactly n bytes, once and in order, unless a call fails; a negative
      descriptor is never written to, and the result is then 0. */
  method Writen(fd: int, dst: Sink, data: array<byte>, off: nat, n: nat) returns (ret: int, ghost used: seq<Event>)
    requires off + n <= data.Length
    modifies dst
    ensures old(dst.script) == used + dst.script
    ensures fd < 0 ==> ret == 0 && used == [] && dst.received == old(dst.received) && dst.largest == old(dst.largest)
    ensures |old(dst.received)| <= |dst.received| <= |old(dst.received)| + n
    ensures dst.received == old(dst.received) + data[off..off + |dst.received| - |old(dst.received)|]
    ensures fd >= 0 ==> (ret == n || ret == -1) && (ret == n <==> |dst.received| == |old(dst.received)| + n)
    ensures ret == n ==> Smooth(used)
    ensures ret == -1 ==> UpToFailure(used)
    ensures Smooth(old(dst.script)) ==> Smooth(dst.script) && (fd >= 0 ==> ret == n)
    ensures old(dst.largest) <= dst.largest && (dst.largest <= old(dst.largest) || dst.largest <= n)
  {
    used := [];
    if fd < 0 {
      return 0, used;
    }
    var nleft := n;
    var ptr := off;
    while nleft > 0
      invariant 0 <= nleft <= n && ptr == off + n - nleft
      invariant dst.received == old(dst.received) + data[off..ptr]
      invariant old(dst.script) == used + dst.script && Smooth(used)
      invariant old(dst.largest) <= dst.largest && (dst.largest <= old(dst.largest) || dst.largest <= n)
      decreases nleft, |dst.script|
    {
      var nwritten, errno, call := dst.Write(data, ptr, nleft);
      NextCall(used, call);
      used := used + call;
      if nwritten <= 0 {
        if nwritten < 0 && (errno == EINTR || errno == EAGAIN) {
          nwritten := 0;
        } else {
          if Smooth(old(dst.script)) { SmoothParts(old(dst.script), used, dst.script); }
          return -1, used;
        }
      }
      if nwritten > 0 {
        assert data[off..ptr + nwritten] == data[off..ptr] + data[ptr..ptr + nwritten];
        Assoc(old(dst.received), data[off..ptr], data[ptr..ptr + nwritten]);
      }
      nleft := nleft - nwritten;
      ptr := ptr + nwritten;
    }
    if Smooth(old(dst.script)) { SmoothParts(old(dst.script), used, dst.script); }
    ret := n;
  }

  /** A message written to a pipe with `Writen` and then read back with `Readn`, each cut
      up and interrupted in its own way, arrives unchanged, as far as it was written. */
  method ThroughPipe(fd: int, data: array<byte>, writeScript: seq<Event>, readScript: seq<Event>)
    returns (copy: array<byte>, written: int, got: int)
    ensures copy.Length == data.Length && fresh(copy)
    ensures got == data.Length ==> copy[..] == data[..]
    ensures 0 <= got ==> got <= data.Length && copy[..got] == data[..got]
    ensures Smooth(readScript) && fd >= 0 && written == data.Length ==> got == data.Length
    ensures Smooth(writeScript) && Smooth(readScript) && fd >= 0 ==> written == got == data.Length
    ensures fd < 0 ==> written == 0 && (got == 0 || got == -1)
  {
    var dst := new Sink(writeScript);
    ghost var w, g, r;
    written, w := Writen(fd, dst, data, 0, data.Length);
    var src := new Source(dst.received, readScript);
    copy := new byte[data.Length];
    got, g, r := Readn(src, copy, 0, data.Length);
    assert copy[..|g|] == g && dst.received == data[..|dst.received|];
  }

  // ---- Writer and reader at the same time ---------------------------------------------------------

  /** A `Writen` of a message into a pipe and a `Readn` of the same length from it under
      way together: what is still to be written, what is in the pipe, what was read. */
  datatype Pipe = Pipe(capacity: nat, left: seq<byte>, inside: seq<byte>, got: seq<byte>)

  /** One successful call of either side. */
  datatype PipeMove = Wrote(k: nat) | Took(k: nat)

  predicate CanMove(p: Pipe, m: PipeMove) {
    match m
    case Wrote(k) => 0 < k <= |p.left| && |p.inside| + k <= p.capacity
    case Took(k) => 0 < k <= |p.inside|
  }

  function AfterMove(p: Pipe, m: PipeMove): Pipe
    requires CanMove(p, m)
  {
    match m
    case Wrote(k) => p.(left := p.left[k..], inside := p.inside + p.left[..k])
    case Took(k) => p.(inside := p.inside[k..], got := p.got + p.inside[..k])
  }

  predicate CanMoveAll(p: Pipe, moves: seq<PipeMove>)
    decreases |moves|
  {
    moves == [] || (CanMove(p, moves[0]) && CanMoveAll(AfterMove(p, moves[0]), moves[1..]))
  }

  function AfterMoves(p: Pipe, moves: seq<PipeMove>): Pipe
    requires CanMoveAll(p, moves)
    decreases |moves|
  {
    if moves == [] then p else AfterMoves(AfterMove(p, moves[0]), moves[1..])
  }

  lemma MoveKeeps(p: Pipe, m: PipeMove)
    requires CanMove(p, m)
    ensures var q := AfterMove(p, m);
            && q.got + (q.inside + q.left) == p.got + (p.inside + p.left)
            && 2 * |q.left| + |q.inside| < 2 * |p.left| + |p.inside|
  {
    match m
    case Wrote(k) =>
      assert p.left == p.left[..k] + p.left[k..];
      Assoc(p.inside, p.left[..k], p.left[k..]);
    case Took(k) =>
      assert p.inside == p.inside[..k] + p.inside[k..];
      Assoc(p.inside[..k], p.inside[k..], p.left);
      Assoc(p.got, p.inside[..k], p.inside[k..] + p.left);
  }

  lemma {:induction false} MovesKeep(p: Pipe, moves: seq<PipeMove>)
    requires CanMoveAll(p, moves)
    ensures var q := AfterMoves(p, moves);
            && q.got + (q.inside + q.left) == p.got + (p.inside + p.left)
            && 2 * |q.left| + |q.inside| + |moves| <= 2 * |p.left| + |p.inside|
            && q.capacity == p.capacity
    decreases |moves|
  {
    if moves != [] {
      MoveKeeps(p, moves[0]);
      MovesKeep(AfterMove(p, moves[0]), moves[1..]);
    }
  }

  /** Through a pipe of any positive capacity, with partial transfers on both sides and
      in any interleaving: what was read is always a prefix of the message, at most two
      moves are made per byte, and the two sides can only come to rest when all of the
      message has been read. */
  lemma PipeIsIdentity(data: seq<byte>, capacity: nat, moves: seq<PipeMove>)
    requires capacity > 0 && CanMoveAll(Pipe(capacity, data, [], []), moves)
    ensures var q := AfterMoves(Pipe(capacity, data, [], []), moves);
            && q.got <= data && |moves| <= 2 * |data|
            && ((forall m: PipeMove :: !CanMove(q, m)) <==> q.got == data)
  {
    MovesKeep(Pipe(capacity, data, [], []), moves);
    var q := AfterMoves(Pipe(capacity, data, [], []), moves);
    assert q.got + (q.inside + q.left) == data;
    if q.inside != [] {
      assert CanMove(q, Took(1));
    } else if q.left != [] {
      assert CanMove(q, Wrote(1));
    }
  }
}
