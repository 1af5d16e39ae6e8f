/** The pipeline never deadlocks, its runs have a guaranteed yield, and it winds
    down within a bounded amount of work once it is told to stop. */
module PipelineProgress {
  import opened Pipeline
  import opened PipelineInvariant
  import opened PipelineSafety

  /** Steps that take a thread to its next place without a failure or a retry. */
  predicate IsReaderAdvance(e: Event) {
    e.ReaderTest? || e.ReaderTake? || e.DeviceRead? || e.ReaderPublish?
  }

  predicate IsSenderAdvance(e: Event) {
    e.SenderTest? || e.SenderTake? || e.SenderReturn?
  }

  predicate Running(s: State) {
    !s.reader.RExit? && !s.sender.SExit?
  }

  /** The only ways out of the two loops, and of not being told to stop. */
  lemma ExitReasons(s: State, e: Event)
    requires s.Inv() && Enabled(s, e)
    ensures !s.reader.RExit? ==>
              (Step(s, e).reader.RExit? <==>
               (e.ReaderTest? && s.stopped) || e.ReaderFail? || (e.DeviceRead? && e.ret < 0))
    ensures !s.sender.SExit? ==>
              (Step(s, e).sender.SExit? <==> (e.SenderTest? && s.stopped) || e.SenderFail?)
    ensures Step(s, e).stopped <==> s.stopped || e == Stop
  {
    HeldInRange(s);
  }

  /** As long as both threads are in their loops one of them can move on: both
      waiting would leave no index anywhere. Unless told to stop both stay in their loops. */
  lemma NoDeadlock(s: State) returns (e: Event)
    requires s.Inv() && Running(s)
    ensures Enabled(s, e) && (!s.stopped ==> Running(Step(s, e)))
    ensures IsReaderAdvance(e) || IsSenderAdvance(e) || e.SocketWrote?
    ensures e.DeviceRead? ==> e.ret >= 0
  {
    HeldInRange(s);
    if s.reader == RTest {
      e := ReaderTest;
    } else if s.reader.RFill? {
      e := DeviceRead(0, s.halves[s.reader.i]);
    } else if s.reader.RPublish? {
      e := ReaderPublish;
    } else if s.dmaPipe != [] {
      e := ReaderTake;
    } else if s.sender == STest {
      e := SenderTest;
    } else if s.sender.SSend? {
      e := SocketWrote(1);
    } else if s.sender.SReturn? {
      e := SenderReturn;
    } else {
      assert s.sockPipe != [] by { assert |s.Ring()| == |s.sockPipe|; }
      e := SenderTake;
    }
    ExitReasons(s, e);
  }

  /** Steps of the reader's present round. A chunk is counted as four steps already
      when it is read, one step before its index is passed on. */
  function ReaderPhase(s: State): int {
    match s.reader
    case RTest => 0
    case RTake => 1
    case RFill(_) => 2
    case RPublish(_) => -1
    case RExit(_, _) => 0
  }

  function SenderPhase(s: State): nat {
    match s.sender
    case STest => 0
    case STake => 1
    case SSend(_, _) => 2
    case SReturn(_, _) => 2
    case SExit(_, _) => 0
  }

  /** Advancing steps, socket writes left aside. */
  function Advances(evs: seq<Event>): nat {
    if evs == [] then 0 else (if IsReaderAdvance(evs[0]) || IsSenderAdvance(evs[0]) then 1 else 0) + Advances(evs[1..])
  }

  function Writes(evs: seq<Event>): nat {
    if evs == [] then 0 else (if evs[0].SocketWrote? then 1 else 0) + Writes(evs[1..])
  }

  /** Work done by the reader: four steps per chunk, and those of its present round. */
  function ReaderWork(s: State): int {
    4 * |s.chunks| + ReaderPhase(s)
  }

  /** Work done by the sender: three steps per index it has given back, and those of its present round. */
  function SenderWork(s: State): nat {
    3 * s.returned + SenderPhase(s)
  }

  function Work(s: State): int {
    ReaderWork(s) + SenderWork(s)
  }

  lemma ReaderWorkStep(s: State, e: Event)
    requires s.Inv() && Enabled(s, e) && !Step(s, e).reader.RExit?
    ensures !s.reader.RExit?
    ensures ReaderWork(Step(s, e)) == ReaderWork(s) + (if IsReaderAdvance(e) then 1 else 0)
  {
    HeldInRange(s);
  }

  lemma SenderWorkStep(s: State, e: Event)
    requires s.Inv() && Enabled(s, e) && !Step(s, e).sender.SExit?
    ensures !s.sender.SExit?
    ensures SenderWork(Step(s, e)) == SenderWork(s) + (if IsSenderAdvance(e) then 1 else 0)
  {
    HeldInRange(s);
  }

  lemma WriteStep(s: State, e: Event)
    requires s.Inv() && Enabled(s, e)
    ensures |Step(s, e).out| >= |s.out| + (if e.SocketWrote? then 1 else 0)
  {
    HeldInRange(s);
  }

  lemma WorkStep(s: State, e: Event)
    requires s.Inv() && Enabled(s, e) && Running(Step(s, e))
    ensures Running(s)
    ensures Work(Step(s, e)) == Work(s) + (if IsReaderAdvance(e) || IsSenderAdvance(e) then 1 else 0)
    ensures |Step(s, e).out| >= |s.out| + (if e.SocketWrote? then 1 else 0)
  {
    ReaderWorkStep(s, e);
    SenderWorkStep(s, e);
    WriteStep(s, e);
  }

  /** In a run after which both threads are still in their loops, every advancing
      step is accounted for by completed laps and the current places. */
  lemma {:induction false} WorkAccounts(s: State, evs: seq<Event>)
    requires s.Inv() && Feasible(s, evs) && Running(Exec(s, evs))
    ensures Running(s)
    ensures Work(Exec(s, evs)) == Work(s) + Advances(evs)
    ensures |Exec(s, evs).out| >= |s.out| + Writes(evs)
    decreases |evs|
  {
    if evs != [] {
      StepInv(s, evs[0]);
      WorkAccounts(Step(s, evs[0]), evs[1..]);
      WorkStep(s, evs[0]);
    }
  }

  /** An explicit lower bound: of a run's advancing steps all but 4N + 4 pay, seven
      for one, for buffers sent and returned, and its socket writes all move bytes. */
  lemma {:induction false} GuaranteedYield(s: State, evs: seq<Event>)
    requires Init(s) && s.Inv() && Feasible(s, evs) && Running(Exec(s, evs))
    ensures 7 * Exec(s, evs).returned + 4 * s.N() + 4 >= Advances(evs)
    ensures |Exec(s, evs).out| >= Writes(evs)
  {
    WorkAccounts(s, evs);
    SameSize(s, evs);
    BufferOrder(Exec(s, evs));
  }

  lemma SameSizeStep(s: State, e: Event)
    requires s.Inv() && Enabled(s, e)
    ensures Step(s, e).N() == s.N()
  {
    HeldInRange(s);
  }

  lemma {:induction false} SameSize(s: State, evs: seq<Event>)
    requires s.Inv() && Feasible(s, evs)
    ensures Exec(s, evs).N() == s.N()
    decreases |evs|
  {
    if evs != [] {
      StepInv(s, evs[0]);
      SameSizeStep(s, evs[0]);
      SameSize(Step(s, evs[0]), evs[1..]);
    }
  }

  // ---- Stop ---------------------------------------------------------------------------------

  /** Device reads completed during a run. */
  function Fills(evs: seq<Event>): nat {
    if evs == [] then 0 else (if evs[0].DeviceRead? then 1 else 0) + Fills(evs[1..])
  }

  /** Buffers the sender takes up during a run. */
  function Takes(evs: seq<Event>): nat {
    if evs == [] then 0 else (if evs[0].SenderTake? then 1 else 0) + Takes(evs[1..])
  }

  function FillsLeft(s: State): nat {
    if s.reader == RTake || s.reader.RFill? then 1 else 0
  }

  function TakesLeft(s: State): nat {
    if s.sender == STake then 1 else 0
  }

  lemma StopStep(s: State, e: Event)
    requires s.Inv() && s.stopped && Enabled(s, e)
    ensures Step(s, e).stopped
    ensures (if e.DeviceRead? then 1 else 0) + FillsLeft(Step(s, e)) <= FillsLeft(s)
    ensures (if e.SenderTake? then 1 else 0) + TakesLeft(Step(s, e)) <= TakesLeft(s)
  {
    HeldInRange(s);
  }

  /** Stop is never taken back, and from then on a thread that is past its test of
      the status word handles at most one more buffer; any other thread none. */
  lemma {:induction false} StopBound(s: State, evs: seq<Event>)
    requires s.Inv() && s.stopped && Feasible(s, evs)
    ensures Exec(s, evs).stopped
    ensures Fills(evs) + FillsLeft(Exec(s, evs)) <= FillsLeft(s)
    ensures Takes(evs) + TakesLeft(Exec(s, evs)) <= TakesLeft(s)
    decreases |evs|
  {
    if evs != [] {
      StepInv(s, evs[0]);
      StopStep(s, evs[0]);
      StopBound(Step(s, evs[0]), evs[1..]);
    }
  }

  // ---- One thread gone ------------------------------------------------------------------------

  /** Device reads that can still complete without a returned index. */
  function FillBudget(s: State): nat {
    |s.dmaPipe| + (if s.reader.RFill? then 1 else 0)
  }

  lemma ExitedStep(s: State, e: Event)
    requires s.Inv() && Enabled(s, e)
    ensures s.sender.SExit? ==> Step(s, e).sender == s.sender
    ensures s.sender.SExit? ==> (if e.DeviceRead? then 1 else 0) + FillBudget(Step(s, e)) <= FillBudget(s)
    ensures s.reader.RExit? ==> Step(s, e).reader == s.reader
    ensures s.reader.RExit? ==> (if e.SenderTake? then 1 else 0) + |Step(s, e).sockPipe| == |s.sockPipe|
  {
    HeldInRange(s);
  }

  /** A dead thread starves the other: without a sender the device is read at most
      once per free buffer, without a reader only the queued buffers are still taken. */
  lemma {:induction false} ExitStarves(s: State, evs: seq<Event>)
    requires s.Inv() && Feasible(s, evs)
    ensures s.sender.SExit? ==>
              Exec(s, evs).sender == s.sender && Fills(evs) + FillBudget(Exec(s, evs)) <= FillBudget(s)
    ensures s.reader.RExit? ==> Exec(s, evs).reader == s.reader && Takes(evs) + |Exec(s, evs).sockPipe| == |s.sockPipe|
    decreases |evs|
  {
    if evs != [] {
      StepInv(s, evs[0]);
      ExitedStep(s, evs[0]);
      ExitStarves(Step(s, evs[0]), evs[1..]);
    }
  }
}
