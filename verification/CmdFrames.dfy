/** The command protocol on the wire: one length byte, then that many payload bytes. */
module CmdFrames {
  import opened Bytes

  /** A frame as it travels, length byte included. */
  predicate IsFrame(f: seq<byte>) {
    |f| >= 2 && f[0] as int == |f| - 1
  }

  function Encode(payload: seq<byte>): (f: seq<byte>)
    requires 1 <= |payload| <= 255
    ensures IsFrame(f)
  {
    [|payload| as byte] + payload
  }

  /** The complete non-empty frames of a byte stream, in order. A zero length byte is
      skipped and an unfinished frame at the end is dropped. */
  function Decode(s: seq<byte>): (frames: seq<seq<byte>>)
    ensures forall i :: 0 <= i < |frames| ==> IsFrame(frames[i])
  {
    if s == [] then []
    else if s[0] == 0 then Decode(s[1..])
    else
      var end := 1 + s[0] as int;
      if end > |s| then [] else [s[..end]] + Decode(s[end..])
  }

  /** The stream ends where a frame ends. */
  predicate Aligned(s: seq<byte>) {
    if s == [] then true
    else if s[0] == 0 then Aligned(s[1..])
    else
      var end := 1 + s[0] as int;
      end <= |s| && Aligned(s[end..])
  }

  /** Decoding can be cut at any frame boundary. */
  lemma {:induction false} DecodeConcat(a: seq<byte>, b: seq<byte>)
    requires Aligned(a)
    ensures Decode(a + b) == Decode(a) + Decode(b)
    ensures Aligned(a + b) <==> Aligned(b)
  {
    if a == [] {
      assert a + b == b;
    } else {
      var end := if a[0] == 0 then 1 else 1 + a[0] as int;
      assert (a + b)[end..] == a[end..] + b;
      assert (a + b)[..end] == a[..end];
      DecodeConcat(a[end..], b);
    }
  }

  lemma DecodeFrame(f: seq<byte>)
    requires IsFrame(f)
    ensures Decode(f) == [f] && Aligned(f)
  {
    assert f[..|f|] == f && f[|f|..] == [];
  }

  /** One more frame behind an aligned stream. */
  lemma DecodeSnoc(a: seq<byte>, f: seq<byte>)
    requires Aligned(a) && IsFrame(f)
    ensures Aligned(a + f) && Decode(a + f) == Decode(a) + [f]
  {
    DecodeConcat(a, f);
    DecodeFrame(f);
  }

  /** A frame that is not all there yet contributes nothing. */
  lemma DecodePartial(a: seq<byte>, tail: seq<byte>)
    requires Aligned(a) && (tail == [] || (tail[0] > 0 && |tail| <= tail[0] as int))
    ensures Decode(a + tail) == Decode(a)
  {
    DecodeConcat(a, tail);
  }

  /** What a decoder forwards for a stream is a prefix of what it forwards for more of it. */
  lemma ForwardMonotone(a: seq<byte>, b: seq<byte>)
    requires Aligned(a)
    ensures Flatten(Decode(a)) <= Flatten(Decode(a + b))
  {
    DecodeConcat(a, b);
    FlattenConcat(Decode(a), Decode(b));
  }

  // ---- Rounds of the reader ------------------------------------------------------------------

  /** What one round of the command thread reads: an empty header, a frame, or all there is of one. */
  function Round(s: seq<byte>): nat
    requires s != []
  {
    if 1 + s[0] as int <= |s| then 1 + s[0] as int else |s|
  }

  /** The part of a stream that the first n rounds read. */
  function FirstRounds(s: seq<byte>, n: nat): seq<byte> {
    if n == 0 || s == [] then [] else s[..Round(s)] + FirstRounds(s[Round(s)..], n - 1)
  }

  lemma {:induction false} FirstRoundsPrefix(s: seq<byte>, n: nat)
    ensures FirstRounds(s, n) <= s
    ensures n >= |s| ==> FirstRounds(s, n) == s
  {
    if n > 0 && s != [] {
      FirstRoundsPrefix(s[Round(s)..], n - 1);
      assert s == s[..Round(s)] + s[Round(s)..];
    }
  }

  lemma NextRound(s: seq<byte>, taken: seq<byte>, rest: seq<byte>, n: nat)
    requires n > 0 && s == taken + rest && (taken == [0] || IsFrame(taken))
    ensures FirstRounds(s, n) == taken + FirstRounds(rest, n - 1)
  {
    assert s[0] == taken[0] && Round(s) == |taken|;
    assert s[..|taken|] == taken && s[|taken|..] == rest;
  }

  /** A round that the end of the stream cuts short reads all there is. */
  lemma LastRound(tail: seq<byte>, n: nat)
    requires n > 0 && (tail == [] || (tail[0] > 0 && |tail| <= tail[0] as int))
    ensures FirstRounds(tail, n) == tail
  {
    if tail != [] {
      assert Round(tail) == |tail| && tail[|tail|..] == [] && FirstRounds([], n - 1) == [];
    }
  }

  // ---- Round trip ---------------------------------------------------------------------------

  predicate Payloads(ps: seq<seq<byte>>) {
    forall i :: 0 <= i < |ps| ==> 1 <= |ps[i]| <= 255
  }

  function Frames(ps: seq<seq<byte>>): seq<seq<byte>>
    requires Payloads(ps)
  {
    seq(|ps|, i requires 0 <= i < |ps| => Encode(ps[i]))
  }

  function ZeroHeaders(n: nat): seq<byte> {
    if n == 0 then [] else [0] + ZeroHeaders(n - 1)
  }

  lemma {:induction false} DecodeZeroHeaders(n: nat)
    ensures Aligned(ZeroHeaders(n)) && Decode(ZeroHeaders(n)) == []
  {
    if n > 0 {
      DecodeZeroHeaders(n - 1);
      assert ZeroHeaders(n)[1..] == ZeroHeaders(n - 1);
    }
  }

  lemma DecodeEmptyHeader(a: seq<byte>)
    requires Aligned(a)
    ensures Aligned(a + [0]) && Decode(a + [0]) == Decode(a)
  {
    DecodeZeroHeaders(1);
    assert ZeroHeaders(1) == [0];
    DecodeConcat(a, [0]);
  }

  /** The payloads encoded one after the other, with gaps[i] empty headers before the i-th. */
  function Wire(ps: seq<seq<byte>>, gaps: seq<nat>): seq<byte>
    requires Payloads(ps) && |gaps| == |ps|
  {
    if ps == [] then []
    else ZeroHeaders(gaps[0]) + (Encode(ps[0]) + Wire(ps[1..], gaps[1..]))
  }

  lemma WireCons(ps: seq<seq<byte>>, gaps: seq<nat>, tail: seq<byte>)
    requires Payloads(ps) && |gaps| == |ps| && ps != []
    ensures Wire(ps, gaps) + tail == ZeroHeaders(gaps[0]) + (Encode(ps[0]) + (Wire(ps[1..], gaps[1..]) + tail))
  {
    var first, rest := Encode(ps[0]), Wire(ps[1..], gaps[1..]);
    Assoc(ZeroHeaders(gaps[0]), first + rest, tail);
    Assoc(first, rest, tail);
  }

  /** Decoding gives back exactly the encoded frames, wherever empty headers are put
      in and whatever unfinished frame follows. */
  lemma {:induction false} RoundTrip(ps: seq<seq<byte>>, gaps: seq<nat>, tail: seq<byte>)
    requires Payloads(ps) && |gaps| == |ps|
    requires tail == [] || (tail[0] > 0 && |tail| <= tail[0] as int)
    ensures Decode(Wire(ps, gaps) + tail) == Frames(ps)
  {
    if ps == [] {
      assert Wire(ps, gaps) + tail == tail;
    } else {
      var rest := Wire(ps[1..], gaps[1..]) + tail;
      RoundTrip(ps[1..], gaps[1..], tail);
      DecodeZeroHeaders(gaps[0]);
      DecodeFrame(Encode(ps[0]));
      DecodeConcat(Encode(ps[0]), rest);
      DecodeConcat(ZeroHeaders(gaps[0]), Encode(ps[0]) + rest);
      WireCons(ps, gaps, tail);
      assert Frames(ps) == [Encode(ps[0])] + Frames(ps[1..]);
    }
  }

  /** A stream split into its decoded frames, the empty headers between and behind
      them, and an unfinished tail. */
  predicate Splits(s: seq<byte>, ps: seq<seq<byte>>, gaps: seq<nat>, zeros: nat, tail: seq<byte>) {
    && Payloads(ps) && |gaps| == |ps|
    && (tail == [] || (tail[0] > 0 && |tail| <= tail[0] as int))
    && s == Wire(ps, gaps) + (ZeroHeaders(zeros) + tail)
    && Decode(s) == Frames(ps)
  }

  lemma SplitsZero(s: seq<byte>, ps: seq<seq<byte>>, gaps: seq<nat>, zeros: nat, tail: seq<byte>)
    requires s != [] && s[0] == 0 && Splits(s[1..], ps, gaps, zeros, tail)
    ensures if ps == [] then Splits(s, ps, gaps, zeros + 1, tail)
            else Splits(s, ps, gaps[0 := gaps[0] + 1], zeros, tail)
  {
    var end := ZeroHeaders(zeros) + tail;
    assert s == [0] + s[1..];
    if ps == [] {
      Assoc([0], ZeroHeaders(zeros), tail);
    } else {
      var more := gaps[0 := gaps[0] + 1];
      var rest := Encode(ps[0]) + Wire(ps[1..], gaps[1..]);
      assert more[1..] == gaps[1..];
      Assoc([0], ZeroHeaders(gaps[0]), rest);
      Assoc([0], Wire(ps, gaps), end);
    }
  }

  lemma SplitsFrame(s: seq<byte>, ps: seq<seq<byte>>, gaps: seq<nat>, zeros: nat, tail: seq<byte>)
    requires s != [] && s[0] > 0 && 1 + s[0] as int <= |s| && Splits(s[1 + s[0] as int..], ps, gaps, zeros, tail)
    ensures Splits(s, [s[1..1 + s[0] as int]] + ps, [0] + gaps, zeros, tail)
  {
    var end := 1 + s[0] as int;
    var p := s[1..end];
    var ps', gaps' := [p] + ps, [0] + gaps;
    assert ps'[1..] == ps && gaps'[1..] == gaps;
    assert Encode(p) == s[..end] && s == s[..end] + s[end..];
    assert ZeroHeaders(0) + (Encode(p) + Wire(ps, gaps)) == Encode(p) + Wire(ps, gaps);
    Assoc(Encode(p), Wire(ps, gaps), ZeroHeaders(zeros) + tail);
    assert Frames(ps') == [Encode(p)] + Frames(ps);
  }

  /** Conversely nothing is invented or lost: every stream splits. */
  lemma {:induction false} DecodeIsFaithful(s: seq<byte>)
    returns (ps: seq<seq<byte>>, gaps: seq<nat>, zeros: nat, tail: seq<byte>)
    ensures Splits(s, ps, gaps, zeros, tail)
  {
    if s == [] {
      ps, gaps, zeros, tail := [], [], 0, [];
    } else if s[0] == 0 {
      ps, gaps, zeros, tail := DecodeIsFaithful(s[1..]);
      SplitsZero(s, ps, gaps, zeros, tail);
      if ps == [] {
        zeros := zeros + 1;
      } else {
        gaps := gaps[0 := gaps[0] + 1];
      }
    } else if 1 + s[0] as int > |s| {
      ps, gaps, zeros, tail := [], [], 0, s;
      assert s == [] + ([] + s);
    } else {
      var end := 1 + s[0] as int;
      ps, gaps, zeros, tail := DecodeIsFaithful(s[end..]);
      SplitsFrame(s, ps, gaps, zeros, tail);
      ps, gaps := [s[1..end]] + ps, [0] + gaps;
    }
  }

  // ---- The reset frame ------------------------------------------------------------------------

  const RESET_FRAME: seq<byte> := [0x0a, 0x53, 0xf8, 0, 0, 0, 0, 0xff, 0xfe, 0, 0]

  /** strncmp on byte strings that are long enough: stops after n bytes, at a difference or at a common NUL. */
  function Strncmp(a: seq<byte>, b: seq<byte>, n: nat): int
    requires n <= |a| && n <= |b|
  {
    if n == 0 then 0
    else if a[0] != b[0] then a[0] as int - b[0] as int
    else if a[0] == 0 then 0
    else Strncmp(a[1..], b[1..], n - 1)
  }

  function CInt(b: bool): nat {
    if b then 1 else 0
  }

  /** The test in front of the reset branch, as written: the length argument is the
      value of the comparison `sizeof(reset_frame) == 0`. */
  predicate TakesReset(cache: seq<byte>)
    requires |cache| > 0
  {
    cache[0] == 0x0a && Strncmp(RESET_FRAME, cache, CInt(|RESET_FRAME| == 0)) != 0
  }

  /** The reset branch is dead code: the test fails for every frame, the reset frame included. */
  lemma ResetNeverRecognised(f: seq<byte>)
    requires IsFrame(f)
    ensures !TakesReset(f)
  {
    assert Strncmp(RESET_FRAME, f, 0) == 0;
  }

  /** A reset test as written in the source, and the one it stands for. */
  function AsWritten(): seq<byte> -> bool {
    f => |f| > 0 && TakesReset(f)
  }

  function AsMeant(): seq<byte> -> bool {
    f => f == RESET_FRAME
  }

  /** The frames a server with the given reset test passes on. */
  function Kept(frames: seq<seq<byte>>, isReset: seq<byte> -> bool): seq<seq<byte>> {
    if frames == [] then [] else (if isReset(frames[0]) then [] else [frames[0]]) + Kept(frames[1..], isReset)
  }

  /** How often it resets the hardware. */
  function Resets(frames: seq<seq<byte>>, isReset: seq<byte> -> bool): nat {
    if frames == [] then 0 else (if isReset(frames[0]) then 1 else 0) + Resets(frames[1..], isReset)
  }

  /** What the device receives from it for a whole stream. */
  function Output(s: seq<byte>, isReset: seq<byte> -> bool): seq<byte> {
    Flatten(Kept(Decode(s), isReset))
  }

  /** For any reset test: every byte of the frames is passed on if and only if the test
      holds of none of them, and that is when there is no reset. */
  lemma {:induction false} KeepsAllIff(frames: seq<seq<byte>>, isReset: seq<byte> -> bool)
    requires forall i :: 0 <= i < |frames| ==> frames[i] != []
    ensures |Flatten(Kept(frames, isReset))| <= |Flatten(frames)|
    ensures Flatten(Kept(frames, isReset)) == Flatten(frames) <==> forall i :: 0 <= i < |frames| ==> !isReset(frames[i])
    ensures Resets(frames, isReset) == 0 <==> forall i :: 0 <= i < |frames| ==> !isReset(frames[i])
  {
    if frames != [] {
      var f, rest := frames[0], frames[1..];
      KeepsAllIff(rest, isReset);
      assert forall i :: 1 <= i < |frames| ==> frames[i] == rest[i - 1];
      assert forall i :: 0 <= i < |rest| ==> rest[i] == frames[i + 1];
      if !isReset(f) {
        assert Kept(frames, isReset)[1..] == Kept(rest, isReset);
        assert Flatten(frames)[|f|..] == Flatten(rest);
        assert Flatten(Kept(frames, isReset))[|f|..] == Flatten(Kept(rest, isReset));
      } else {
        assert Kept(frames, isReset) == Kept(rest, isReset);
      }
    }
  }

  /** The server as written passes every complete frame on and never resets. */
  lemma WrittenForwardsAll(s: seq<byte>)
    ensures Output(s, AsWritten()) == Flatten(Decode(s)) && Resets(Decode(s), AsWritten()) == 0
  {
    forall i | 0 <= i < |Decode(s)|
      ensures !AsWritten()(Decode(s)[i])
    {
      ResetNeverRecognised(Decode(s)[i]);
    }
    KeepsAllIff(Decode(s), AsWritten());
  }

  /** The code does what is meant, in the bytes the device receives and in the number
      of resets, on exactly the streams whose frames do not include the reset frame. */
  lemma ResetExact(s: seq<byte>)
    ensures Output(s, AsWritten()) == Output(s, AsMeant()) <==> RESET_FRAME !in Decode(s)
    ensures Resets(Decode(s), AsWritten()) == Resets(Decode(s), AsMeant()) <==> RESET_FRAME !in Decode(s)
    ensures Flatten(Decode(s)) == Output(s, AsMeant()) <==> RESET_FRAME !in Decode(s)
  {
    WrittenForwardsAll(s);
    KeepsAllIff(Decode(s), AsMeant());
  }

  /** The failing input: the reset frame alone is a frame, and the device gets all its
      11 bytes and no reset, where it should get a reset and no byte. */
  lemma ResetFrameIsForwarded()
    ensures RESET_FRAME == Encode([0x53, 0xf8, 0, 0, 0, 0, 0xff, 0xfe, 0, 0])
    ensures |RESET_FRAME| == 11 && IsFrame(RESET_FRAME) && Decode(RESET_FRAME) == [RESET_FRAME]
    ensures Output(RESET_FRAME, AsWritten()) == RESET_FRAME && Resets(Decode(RESET_FRAME), AsWritten()) == 0
    ensures Output(RESET_FRAME, AsMeant()) == [] && Resets(Decode(RESET_FRAME), AsMeant()) == 1
  {
    assert RESET_FRAME[1..] == [0x53, 0xf8, 0, 0, 0, 0, 0xff, 0xfe, 0, 0];
    assert RESET_FRAME == [10] + RESET_FRAME[1..];
    DecodeFrame(RESET_FRAME);
    WrittenForwardsAll(RESET_FRAME);
    FlattenSingle(RESET_FRAME);
    assert [RESET_FRAME][1..] == [];
    assert Kept([RESET_FRAME], AsMeant()) == [];
  }

  /** Passing the full length would not be enough either: the NUL at offset 3 ends the
      comparison, so every frame that shares the first four bytes would compare equal. */
  lemma FullLengthCompareStopsAtNul(f: seq<byte>)
    requires |f| >= |RESET_FRAME|
    ensures Strncmp(RESET_FRAME, f, |RESET_FRAME|) == 0 <==> f[..4] == RESET_FRAME[..4]
  {
    var r := RESET_FRAME;
    assert r[1..][1..][1..][0] == 0 && f[1..][1..][1..][0] == f[3];
    assert f[1..][1..][0] == f[2] && r[1..][1..][0] == r[2];
    assert f[1..][0] == f[1];
    assert Strncmp(r[1..][1..][1..], f[1..][1..][1..], 8) == if f[3] != 0 then 0 - f[3] as int else 0;
    assert Strncmp(r[1..][1..], f[1..][1..], 9)
        == if f[2] != r[2] then r[2] as int - f[2] as int else Strncmp(r[1..][1..][1..], f[1..][1..][1..], 8);
    assert Strncmp(r[1..], f[1..], 10)
        == if f[1] != r[1] then r[1] as int - f[1] as int else Strncmp(r[1..][1..], f[1..][1..], 9);
    assert f[..4] == [f[0], f[1], f[2], f[3]];
    assert r[..4] == [r[0], r[1], r[2], r[3]];
  }
}
