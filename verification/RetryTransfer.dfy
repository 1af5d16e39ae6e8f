/** The bounded-retry loops of socket_protocol.c. Unlike `Readn` and `Writen` they
    give up on every error, and retry a return value of 0 ten times in a row. */
module RetryTransfer {
  import opened Bytes
  import opened Transfer

  const MAX_ZEROS: nat := 10
  const INT_MAX: nat := 0x7fff_ffff

  /** How a loop ends: the bytes moved and the system calls made. */
  datatype Outcome = Outcome(moved: nat, calls: nat)

  function Tail(script: seq<Event>): seq<Event> {
    if script == [] then [] else script[1..]
  }

  /** The loop from any point: `left` bytes to go, `avail` bytes there to be moved,
      `zeros` returns of 0 in a row so far. */
  function RetryLoop(script: seq<Event>, avail: nat, left: nat, zeros: nat): Outcome
    requires zeros <= MAX_ZEROS
    decreases left, MAX_ZEROS - zeros
  {
    if left == 0 then Outcome(0, 0)
    else
      var ret := Returned(script, Min(left, avail));
      if ret < 0 then
        Outcome(0, 1)
      else if ret == 0 then
        if zeros == MAX_ZEROS then Outcome(0, 1)
        else
          var o := RetryLoop(Tail(script), avail, left, zeros + 1);
          o.(calls := o.calls + 1)
      else
        var o := RetryLoop(Tail(script), avail - ret, left - ret, 0);
        o.(moved := o.moved + ret, calls := o.calls + 1)
  }

  /** Against any environment the loop makes at most eleven calls per byte asked for
      and never moves more than it should. */
  lemma {:induction false} RetryBound(script: seq<Event>, avail: nat, left: nat, zeros: nat)
    requires zeros <= MAX_ZEROS
    ensures var o := RetryLoop(script, avail, left, zeros);
            && o.moved <= left && o.moved <= avail
            && (left > 0 ==> o.calls <= 11 * left - zeros)
            && (left == 0 ==> o.calls == 0)
    decreases left, MAX_ZEROS - zeros
  {
    if left > 0 {
      var ret := Returned(script, Min(left, avail));
      if ret == 0 && zeros < MAX_ZEROS {
        RetryBound(Tail(script), avail, left, zeros + 1);
      } else if ret > 0 {
        RetryBound(Tail(script), avail - ret, left - ret, 0);
      }
    }
  }

  /** Ten returns of 0 and then one byte, for each of n bytes. */
  function WorstScript(n: nat): seq<Event> {
    if n == 0 then [] else Zeros(MAX_ZEROS) + [Move(1)] + WorstScript(n - 1)
  }

  function Zeros(z: nat): seq<Event> {
    if z == 0 then [] else [Move(0)] + Zeros(z - 1)
  }

  lemma {:induction false} ZerosThenOne(rest: seq<Event>, left: nat, zeros: nat)
    requires left > 0 && zeros <= MAX_ZEROS
    ensures RetryLoop(Zeros(MAX_ZEROS - zeros) + [Move(1)] + rest, left, left, zeros)
            == var o := RetryLoop(rest, left - 1, left - 1, 0);
               Outcome(o.moved + 1, o.calls + 1 + MAX_ZEROS - zeros)
    decreases MAX_ZEROS - zeros
  {
    var script := Zeros(MAX_ZEROS - zeros) + [Move(1)] + rest;
    if zeros == MAX_ZEROS {
      assert script == [Move(1)] + rest;
      assert Tail(script) == rest;
    } else {
      assert script[0] == Move(0);
      assert Tail(script) == Zeros(MAX_ZEROS - zeros - 1) + [Move(1)] + rest;
      ZerosThenOne(rest, left, zeros + 1);
    }
  }

  /** The bound is exact: for every n some environment makes the loop need 11 n calls, and succeed. */
  lemma {:induction false} RetryBoundIsTight(n: nat)
    ensures RetryLoop(WorstScript(n), n, n, 0) == Outcome(n, 11 * n)
  {
    if n > 0 {
      RetryBoundIsTight(n - 1);
      ZerosThenOne(WorstScript(n - 1), n, 0);
    }
  }

  /** Where the loop can no longer be made to fail: no error and never eleven zeros in a row. */
  predicate Patient(script: seq<Event>, zeros: nat) {
    if script == [] then true
    else if script[0].Error? then false
    else if script[0].k == 0 then zeros < MAX_ZEROS && Patient(script[1..], zeros + 1)
    else Patient(script[1..], 0)
  }

  /** The script entries a loop uses up. */
  function Used(script: seq<Event>, calls: nat): seq<Event> {
    script[..Min(calls, |script|)]
  }

  lemma UsedCons(script: seq<Event>, calls: nat)
    requires script != []
    ensures Used(script, calls + 1) == [script[0]] + Used(script[1..], calls)
    ensures Used(script, calls + 1)[1..] == Used(script[1..], calls)
  {
    var m := Min(calls, |script| - 1);
    assert script[..1 + m] == [script[0]] + script[1..][..m];
    assert ([script[0]] + script[1..][..m])[1..] == script[1..][..m];
  }

  /** With enough bytes available the transfer is complete if and only if the calls it
      makes meet no error and no eleventh return of 0 in a row. */
  lemma {:induction false} CompletesIffPatient(script: seq<Event>, avail: nat, left: nat, zeros: nat)
    requires zeros <= MAX_ZEROS && left <= avail
    ensures var o := RetryLoop(script, avail, left, zeros);
            o.moved == left <==> Patient(Used(script, o.calls), zeros)
    decreases left, MAX_ZEROS - zeros
  {
    RetryBound(script, avail, left, zeros);
    var o := RetryLoop(script, avail, left, zeros);
    if left > 0 && script != [] {
      var ret := Returned(script, Min(left, avail));
      UsedCons(script, o.calls - 1);
      if ret > 0 || (ret == 0 && zeros < MAX_ZEROS) {
        var next := if ret > 0 then 0 else zeros + 1;
        CompletesIffPatient(script[1..], avail - ret, left - ret, next);
        var rest := RetryLoop(script[1..], avail - ret, left - ret, next);
        assert o.calls == rest.calls + 1;
      }
    }
  }

  /** With enough bytes available and an environment patient throughout the transfer is complete. */
  lemma {:induction false} PatientCompletes(script: seq<Event>, avail: nat, left: nat, zeros: nat)
    requires zeros <= MAX_ZEROS && left <= avail
    requires Patient(script, zeros)
    ensures RetryLoop(script, avail, left, zeros).moved == left
    decreases left, MAX_ZEROS - zeros
  {
    if left > 0 && script != [] {
      var ret := Returned(script, Min(left, avail));
      if ret == 0 {
        PatientCompletes(script[1..], avail, left, zeros + 1);
      } else {
        PatientCompletes(script[1..], avail - ret, left - ret, 0);
      }
    }
  }

  /** Returns 1 exactly when all n bytes arrived; they are in the buffer in order, and
      at most 11 n calls were made. */
  method ReadData(src: Source, buf: array<byte>, n: nat) returns (ret: int, ghost got: seq<byte>)
    requires n <= INT_MAX && n <= buf.Length
    modifies src, buf
    ensures |got| <= n && ret == if |got| == n then 1 else -1
    ensures old(src.pending) == got + src.pending && buf[..] == Placed(old(buf[..]), 0, got)
    ensures var o := RetryLoop(old(src.script), |old(src.pending)|, n, 0);
            |got| == o.moved && src.calls == old(src.calls) + o.calls
    ensures src.calls <= old(src.calls) + 11 * n
  {
    var leftLen := n;
    var maxReadCount := 0;
    got := [];
    ghost var calls := 0;
    RetryBound(src.script, |src.pending|, n, 0);
    ghost var o := RetryLoop(src.script, |src.pending|, n, 0);
    while leftLen != 0
      invariant 0 <= leftLen <= n && |got| == n - leftLen
      invariant maxReadCount <= MAX_ZEROS
      invariant old(src.pending) == got + src.pending && buf[..] == Placed(old(buf[..]), 0, got)
      invariant src.calls == old(src.calls) + calls
      invariant var now := RetryLoop(src.script, |src.pending|, leftLen, maxReadCount);
                o.moved == |got| + now.moved && o.calls == calls + now.calls
      decreases leftLen, MAX_ZEROS - maxReadCount
    {
      var r, errno, call, more := ReadOn(src, buf, n - leftLen, leftLen, old(src.pending), old(buf[..]), 0, got);
      got, calls := more, calls + 1;
      if r > 0 {
        maxReadCount := 0;
        leftLen := leftLen - r;
      } else if r == 0 {
        maxReadCount := maxReadCount + 1;
        if maxReadCount > 10 {
          break;
        }
      } else {
        break;
      }
    }
    ret := if leftLen == 0 then 1 else -1;
  }

  /** Returns 1 exactly when all n bytes were sent; what was sent is the first part of
      the data, and at most 11 n calls were made. */
  method WriteData(dst: Sink, data: array<byte>, n: nat) returns (ret: int)
    requires n <= INT_MAX && n <= data.Length
    modifies dst
    ensures var o := RetryLoop(old(dst.script), n, n, 0);
            && o.moved <= n && dst.received == old(dst.received) + data[..o.moved]
            && dst.calls == old(dst.calls) + o.calls
            && ret == if o.moved == n then 1 else -1
    ensures dst.calls <= old(dst.calls) + 11 * n
  {
    var leftLen := n;
    var maxWriteCount := 0;
    ghost var calls := 0;
    RetryBound(dst.script, n, n, 0);
    ghost var o := RetryLoop(dst.script, n, n, 0);
    while leftLen != 0
      invariant 0 <= leftLen <= n && maxWriteCount <= MAX_ZEROS
      invariant dst.received == old(dst.received) + data[..n - leftLen]
      invariant dst.calls == old(dst.calls) + calls
      invariant var now := RetryLoop(dst.script, leftLen, leftLen, maxWriteCount);
                o.moved == n - leftLen + now.moved && o.calls == calls + now.calls
      decreases leftLen, MAX_ZEROS - maxWriteCount
    {
      ghost var done := n - leftLen;
      var r, errno, call := dst.Write(data, n - leftLen, leftLen);
      calls := calls + 1;
      if r > 0 {
        assert dst.received == old(dst.received) + data[..done + r] by {
          assert data[..done + r] == data[..done] + data[done..done + r];
          Assoc(old(dst.received), data[..done], data[done..done + r]);
        }
        maxWriteCount := 0;
        leftLen := leftLen - r;
      } else if r == 0 {
        maxWriteCount := maxWriteCount + 1;
        if maxWriteCount > 10 {
          break;
        }
      } else {
        break;
      }
    }
    ret := if leftLen == 0 then 1 else -1;
  }
}
