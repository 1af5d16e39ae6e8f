/** The listen and accept loop both servers share: a new connection ends the handler process of
    the previous one before it forks its own. */
module Supervisor {
  import opened Bytes

  datatype Proc = Live | Zombie

  /** What the environment chooses around one system call: the children that exit
      before it, whether SIGINT arrives, whether the call succeeds, and a process number. */
  datatype Choice = Choice(dies: set<nat>, stop: bool, ok: bool, pid: nat)

  function Rest(script: seq<Choice>): seq<Choice> {
    if script == [] then [] else script[1..]
  }

  /** The call about to be made is one that succeeds. */
  predicate NextOk(script: seq<Choice>) {
    script != [] && script[0].ok
  }

  // ---- What the parent is meant to do, as an automaton over its system calls ----------------------

  /** A system call of the parent and how it came out. `stopped`: SIGINT has arrived;
      `reaped`: no child was left; `others`: the children there were at the fork. */
  datatype Call =
    | Accepted(ok: bool, stopped: bool)
    | Listened(ok: bool)
    | Killed(pid: int)
    | Waited(reaped: bool)
    | Probed(pid: int, gone: bool)
    | Forked(pid: int, others: set<nat>)
    | ThreadCreated(ok: bool)

  /** The call the parent has to make next; `Left`: none any more, `Astray`: it made a wrong one. */
  datatype Phase = AtAccept | AtListen | AtKill | AtWait | AtProbe | AtFork | AtThread | Left | Astray

  datatype Parent = Parent(phase: Phase, child: int, hasThread: bool)

  function After(listenFd: int, p: Parent, c: Call): Parent {
    match (p.phase, c)
    case (AtAccept, Accepted(ok, stopped)) =>
      if ok then p.(phase := if p.child > 0 then AtKill else AtFork)
      else p.(phase := if !p.hasThread && stopped then Left else if listenFd > 0 then AtAccept else AtListen)
    case (AtListen, Listened(ok)) => p.(phase := if ok then AtAccept else Left)
    case (AtKill, Killed(pid)) => p.(phase := if pid == p.child then AtWait else Astray)
    case (AtWait, Waited(_)) => p.(phase := AtProbe)
    case (AtProbe, Probed(pid, gone)) =>
      p.(phase := if pid != p.child then Astray else if gone then AtFork else AtProbe)
    case (AtFork, Forked(pid, _)) => p.(phase := if p.hasThread then AtAccept else AtThread, child := pid)
    case (AtThread, ThreadCreated(ok)) => p.(phase := if ok then AtAccept else Left, hasThread := ok)
    case _ => p.(phase := Astray)
  }

  /** Where the calls made so far have led the parent. */
  function Where(listenFd: int, log: seq<Call>): Parent {
    if log == [] then Parent(AtListen, 0, false)
    else After(listenFd, Where(listenFd, log[..|log| - 1]), log[|log| - 1])
  }

  lemma WhereNext(listenFd: int, log: seq<Call>, c: Call)
    ensures Where(listenFd, log + [c]) == After(listenFd, Where(listenFd, log), c)
  {
    assert (log + [c])[..|log|] == log;
  }

  /** Connections accepted, and forks made. */
  function Connections(log: seq<Call>): nat {
    if log == [] then 0
    else Connections(log[..|log| - 1]) + (if log[|log| - 1].Accepted? && log[|log| - 1].ok then 1 else 0)
  }

  function Forks(log: seq<Call>): nat {
    if log == [] then 0 else Forks(log[..|log| - 1]) + (if log[|log| - 1].Forked? then 1 else 0)
  }

  /** Every connection gets a fork of its own, the one being dealt with excepted. */
  lemma {:induction false} EveryConnectionIsServed(listenFd: int, log: seq<Call>)
    requires Where(listenFd, log).phase != Astray
    ensures var p := Where(listenFd, log).phase;
            Connections(log) == Forks(log) + (if p.AtKill? || p.AtWait? || p.AtProbe? || p.AtFork? then 1 else 0)
  {
    if log != [] {
      EveryConnectionIsServed(listenFd, log[..|log| - 1]);
    }
  }

  /** The parent gives up only when the cleanup thread cannot be created, when listen
      fails, or when accept fails after SIGINT while there is no cleanup thread. */
  lemma LeavesOnlyOnFailure(listenFd: int, log: seq<Call>)
    requires Where(listenFd, log).phase == Left
    ensures log != []
    ensures var c := log[|log| - 1];
            || c == ThreadCreated(false) || c == Listened(false)
            || (c == Accepted(false, true) && !Where(listenFd, log).hasThread)
  {
  }

  /** n probes that do not say that the child is gone. */
  function Probes(pid: int, n: nat): seq<Call> {
    seq(n, _ => Probed(pid, false))
  }

  lemma {:induction false} WhereProbes(listenFd: int, log: seq<Call>, pid: int, n: nat)
    requires Where(listenFd, log).phase == AtProbe && Where(listenFd, log).child == pid
    ensures Where(listenFd, log + Probes(pid, n)) == Where(listenFd, log)
  {
    if n == 0 {
      assert log + Probes(pid, 0) == log;
    } else {
      WhereProbes(listenFd, log, pid, n - 1);
      WhereNext(listenFd, log + Probes(pid, n - 1), Probed(pid, false));
      assert log + Probes(pid, n) == log + Probes(pid, n - 1) + [Probed(pid, false)];
    }
  }

  // ---- The kernel -----------------------------------------------------------------------------------

  /** The kernel as the parent sees it. `procs` are the parent's children that have not
      been reaped; `log` records the parent's calls. */
  class Kernel {
    var procs: map<nat, Proc>
    var script: seq<Choice>
    var stopped: bool
    var log: seq<Call>

    constructor (script: seq<Choice>)
      ensures procs == map[] && log == [] && !stopped && this.script == script
    {
      procs, log, stopped, this.script := map[], [], false, script;
    }

    /** One system call begins. */
    method Next() returns (c: Choice)
      modifies this
      ensures log == old(log) && script == Rest(old(script))
      ensures c == if old(script) == [] then Choice({}, false, false, 0) else old(script)[0]
      ensures procs.Keys == old(procs.Keys) && stopped == (old(stopped) || c.stop)
    {
      c := if script == [] then Choice({}, false, false, 0) else script[0];
      script := Rest(script);
      stopped := stopped || c.stop;
      procs := map p | p in procs :: if p in c.dies then Zombie else procs[p];
    }

    method Accept() returns (ok: bool)
      modifies this
      ensures log == old(log) + [Accepted(ok, stopped)] && script == Rest(old(script))
      ensures procs.Keys == old(procs.Keys) && ok == NextOk(old(script))
    {
      var c := Next();
      ok, log := c.ok, log + [Accepted(c.ok, stopped)];
    }

    method Listen() returns (ok: bool)
      modifies this
      ensures log == old(log) + [Listened(ok)] && script == Rest(old(script))
      ensures procs.Keys == old(procs.Keys) && ok == NextOk(old(script))
    {
      var c := Next();
      ok, log := c.ok, log + [Listened(c.ok)];
    }

    method CreateThread() returns (ok: bool)
      modifies this
      ensures log == old(log) + [ThreadCreated(ok)] && script == Rest(old(script))
      ensures procs.Keys == old(procs.Keys) && ok == NextOk(old(script))
    {
      var c := Next();
      ok, log := c.ok, log + [ThreadCreated(c.ok)];
    }

    /** kill(pid, SIGINT): asks; when the child obeys is up to it. */
    method Interrupt(pid: int)
      modifies this
      ensures log == old(log) + [Killed(pid)] && script == Rest(old(script))
      ensures procs.Keys == old(procs.Keys)
    {
      var c := Next();
      log := log + [Killed(pid)];
    }

    /** wait: blocks until the chosen child has exited and reaps it, or returns early. */
    method Wait()
      modifies this
      ensures script == Rest(old(script))
      ensures procs.Keys == old(procs.Keys) - (if NextOk(old(script)) then {old(script)[0].pid} else {})
      ensures log == old(log) + [Waited(procs.Keys == {})]
    {
      var c := Next();
      if c.ok {
        procs := procs - {c.pid};
      }
      log := log + [Waited(procs.Keys == {})];
    }

    /** kill(pid, 0): success for any process in the table, zombies included; without
        the process the answer is ESRCH, or some other error. */
    method Probe(pid: nat) returns (ret: int, isEsrch: bool)
      modifies this
      ensures log == old(log) + [Probed(pid, isEsrch)] && script == Rest(old(script))
      ensures procs.Keys == old(procs.Keys)
      ensures ret == 0 <==> pid in procs
      ensures isEsrch <==> pid !in procs && NextOk(old(script))
    {
      var c := Next();
      ret, isEsrch := if pid in procs then 0 else -1, pid !in procs && c.ok;
      log := log + [Probed(pid, isEsrch)];
    }

    /** fork in the parent: a process number that is not in use, or -1. */
    method Fork() returns (pid: int)
      modifies this
      ensures log == old(log) + [Forked(pid, old(procs.Keys))] && script == Rest(old(script))
      ensures if NextOk(old(script)) && old(script)[0].pid > 0 && old(script)[0].pid !in old(procs)
              then pid == old(script)[0].pid && procs.Keys == old(procs.Keys) + {old(script)[0].pid}
              else pid == -1 && procs.Keys == old(procs.Keys)
      ensures pid > 0 ==> pid as nat in procs && procs[pid as nat] == Live
    {
      ghost var others := procs.Keys;
      var c := Next();
      var free := c.ok && c.pid > 0 && c.pid !in procs;
      pid := if free then c.pid else -1;
      log := log + [Forked(pid, procs.Keys)];
      if free {
        procs := procs[c.pid := Live];
      }
    }
  }

  // ---- The parent -----------------------------------------------------------------------------------

  /** 0 exactly when the kernel says that there is no such process; a zombie and an
      unclear error count as alive. */
  method IsProcessAlive(k: Kernel, pid: nat) returns (alive: int)
    modifies k
    ensures k.log == old(k.log) + [Probed(pid, alive == 0)]
    ensures k.procs.Keys == old(k.procs.Keys) && k.script == Rest(old(k.script))
    ensures alive == if pid !in k.procs && NextOk(old(k.script)) then 0 else 1
  {
    var ret, isEsrch := k.Probe(pid);
    if ret == 0 {
      return 1;
    } else {
      if isEsrch {
        return 0;
      }
    }
    return 1;
  }

  /** The polling loop behind wait; the result is false while the parent is still
      polling. Polling reaps nothing, so the loop is left exactly when wait had already
      reaped the child and some probe gets a clear answer. */
  method PollUntilGone(k: Kernel, pid: nat) returns (gone: bool, ghost n: nat)
    modifies k
    ensures k.log == old(k.log) + Probes(pid, n) + (if gone then [Probed(pid, true)] else [])
    ensures k.procs.Keys == old(k.procs.Keys) && |k.script| <= |old(k.script)|
    ensures gone <==> pid !in old(k.procs) && exists i :: 0 <= i < |old(k.script)| && old(k.script)[i].ok
    ensures !gone ==> k.script == []
  {
    ghost var start, used := k.script, if k.script == [] then 0 else 1;
    n := 0;
    ghost var log := k.log;
    var alive := IsProcessAlive(k, pid);
    assert log + Probes(pid, 0) == log;
    while alive == 1 && k.script != []
      invariant k.procs.Keys == old(k.procs.Keys)
      invariant k.log == log + Probes(pid, n) + [Probed(pid, alive == 0)]
      invariant 0 <= used <= |start| && k.script == start[used..]
      invariant alive == 0 || alive == 1
      invariant alive == 0 ==> pid !in k.procs && exists i :: 0 <= i < |start| && start[i].ok
      invariant alive == 1 && pid !in k.procs ==> forall i :: 0 <= i < used ==> !start[i].ok
      decreases |k.script|
    {
      assert k.script[0] == start[used];
      assert Probes(pid, n + 1) == Probes(pid, n) + [Probed(pid, false)];
      Assoc(log, Probes(pid, n), [Probed(pid, false)]);
      alive := IsProcessAlive(k, pid);
      used, n := used + 1, n + 1;
    }
    gone := alive == 0;
    if !gone {
      assert Probes(pid, n + 1) == Probes(pid, n) + [Probed(pid, false)];
      n := n + 1;
    }
  }

  /** kill, wait, poll: false when the parent is left polling. It is whenever wait did not reap the handler. */
  method EndHandler(k: Kernel, childPid: nat) returns (gone: bool, ghost n: nat)
    requires k.procs.Keys == {childPid}
    modifies k
    ensures var rest := Rest(old(k.script));
            var reaped := NextOk(rest) && rest[0].pid == childPid;
            && k.log == old(k.log) + Ended(childPid, reaped, n, gone)
            && k.procs.Keys == (if reaped then {} else {childPid})
            && (gone ==> reaped)
    ensures |k.script| <= |old(k.script)| && (!gone ==> k.script == [])
  {
    k.Interrupt(childPid);
    k.Wait();
    gone, n := PollUntilGone(k, childPid);
  }

  /** The calls that end a handler. */
  function Ended(pid: int, reaped: bool, n: nat, gone: bool): seq<Call> {
    [Killed(pid), Waited(reaped)] + Probes(pid, n) + (if gone then [Probed(pid, true)] else [])
  }

  lemma WhereEnded(listenFd: int, log: seq<Call>, pid: int, reaped: bool, n: nat, gone: bool)
    requires Where(listenFd, log).phase == AtKill && Where(listenFd, log).child == pid
    ensures Where(listenFd, log + Ended(pid, reaped, n, gone))
            == Where(listenFd, log).(phase := if gone then AtFork else AtProbe)
  {
    var waited := log + [Killed(pid)] + [Waited(reaped)];
    WhereNext(listenFd, log, Killed(pid));
    WhereNext(listenFd, log + [Killed(pid)], Waited(reaped));
    WhereProbes(listenFd, waited, pid, n);
    if gone {
      WhereNext(listenFd, waited + Probes(pid, n), Probed(pid, true));
      assert log + Ended(pid, reaped, n, true) == waited + Probes(pid, n) + [Probed(pid, true)];
    } else {
      assert log + Ended(pid, reaped, n, false) == waited + Probes(pid, n);
    }
  }

  datatype Outcome = Connection | Again | Leave

  /** One accept, and what follows when it fails. */
  method Accept(k: Kernel, listenFd: int, hasClearThread: bool, ghost childPid: int) returns (r: Outcome)
    requires Where(listenFd, k.log) == Parent(AtAccept, childPid, hasClearThread)
    modifies k
    ensures Where(listenFd, k.log)
            == Parent(match r
                      case Leave => Left
                      case Again => AtAccept
                      case Connection => if childPid > 0 then AtKill else AtFork,
                      childPid, hasClearThread)
    ensures Quiet(old(k.log), k.log)
    ensures k.procs.Keys == old(k.procs.Keys) && (old(k.script) != [] ==> |k.script| < |old(k.script)|)
    ensures r == Connection <==> NextOk(old(k.script))
    ensures r == Connection ==> k.script == Rest(old(k.script)) && exists s :: k.log == old(k.log) + [Accepted(true, s)]
  {
    var accepted := k.Accept();
    WhereNext(listenFd, old(k.log), Accepted(accepted, k.stopped));
    if accepted {
      return Connection;
    }
    if !hasClearThread && k.stopped {
      return Leave;
    }
    if listenFd <= 0 {
      ghost var log := k.log;
      var listened := k.Listen();
      WhereNext(listenFd, log, Listened(listened));
      if !listened {
        return Leave;
      }
    }
    return Again;
  }

  /** At every fork the parent had no child. */
  predicate NoOverlap(log: seq<Call>) {
    forall i :: 0 <= i < |log| && log[i].Forked? ==> log[i].others == {}
  }

  /** Every wait has reaped. */
  predicate AllReaped(log: seq<Call>) {
    forall i :: 0 <= i < |log| ==> log[i] != Waited(false)
  }

  /** Nothing but probes without success comes after a wait that did not reap. */
  predicate EarlyWaitIsLast(log: seq<Call>) {
    forall i, j :: 0 <= i < j < |log| && log[i] == Waited(false) ==> log[j].Probed? && !log[j].gone
  }

  /** `log` goes on from `before` without a fork. */
  predicate NoFork(before: seq<Call>, log: seq<Call>) {
    before <= log && forall i :: |before| <= i < |log| ==> !log[i].Forked?
  }

  lemma {:induction false} ForksKept(before: seq<Call>, log: seq<Call>)
    requires NoFork(before, log)
    ensures Forks(log) == Forks(before)
    decreases |log|
  {
    if |log| > |before| {
      ForksKept(before, log[..|log| - 1]);
    } else {
      assert log == before;
    }
  }

  /** `log` goes on from `before` with neither a fork nor a wait. */
  predicate Quiet(before: seq<Call>, log: seq<Call>) {
    NoFork(before, log) && forall i :: |before| <= i < |log| ==> !log[i].Waited?
  }

  lemma QuietKeeps(before: seq<Call>, log: seq<Call>)
    requires Quiet(before, log) && NoOverlap(before) && AllReaped(before)
    ensures NoOverlap(log) && AllReaped(log) && Forks(log) == Forks(before)
  {
    ForksKept(before, log);
  }

  lemma EndedKeeps(before: seq<Call>, pid: int, reaped: bool, n: nat, gone: bool)
    requires NoOverlap(before) && AllReaped(before) && (gone ==> reaped)
    ensures var log := before + Ended(pid, reaped, n, gone);
            && NoOverlap(log) && (reaped <==> AllReaped(log)) && EarlyWaitIsLast(log)
            && Forks(log) == Forks(before)
  {
    var log := before + Ended(pid, reaped, n, gone);
    assert log[|before| + 1] == Waited(reaped);
    assert forall i :: |before| + 2 <= i < |log| ==> log[i].Probed? && (!gone ==> !log[i].gone);
    ForksKept(before, log);
  }

  /** The first handler runs, a second connection comes, and the wait for the first handler returns early. */
  predicate FirstWaitEarly(script: seq<Choice>) {
    && |script| >= 7
    && script[0].ok                            // listen
    && script[1].ok                            // accept
    && script[2].ok && script[2].pid > 0       // fork
    && script[3].ok                            // cleanup thread
    && script[4].ok                            // accept; then kill
    && !script[6].ok                           // wait
  }

  /** Where a run that starts that way is at the head of the accept loop. */
  predicate BeforeEarlyWait(start: seq<Choice>, script: seq<Choice>, log: seq<Call>, childPid: int,
                            hasThread: bool)
    requires FirstWaitEarly(start)
  {
    || (script == Rest(start) && Forks(log) == 0 && childPid == 0 && !hasThread)
    || (script == Rest(Rest(start))[2..] && Forks(log) == 1 && childPid > 0)
  }

  lemma ForkedAlone(before: seq<Call>, pid: int)
    requires NoOverlap(before) && AllReaped(before)
    ensures var log := before + [Forked(pid, {})]; NoOverlap(log) && AllReaped(log) && Forks(log) == Forks(before) + 1
  {
    assert (before + [Forked(pid, {})])[..|before|] == before;
  }

  /** What holds whenever the parent has nothing left to end: it has not been led astray,
      no fork found a child, and every wait has reaped. */
  predicate OnCourse(listenFd: int, log: seq<Call>, p: Parent) {
    Where(listenFd, log) == p && NoOverlap(log) && AllReaped(log)
  }

  /** The handler of the previous connection is ended, or the parent is left polling for it. */
  method EndPrevious(k: Kernel, ghost listenFd: int, childPid: nat, ghost hasClearThread: bool) returns (gone: bool)
    requires k.procs.Keys == {childPid}
    requires OnCourse(listenFd, k.log, Parent(AtKill, childPid, hasClearThread))
    modifies k
    ensures gone ==> OnCourse(listenFd, k.log, Parent(AtFork, childPid, hasClearThread)) && k.procs.Keys == {}
    ensures gone ==> |k.script| <= |old(k.script)|
    ensures !gone ==>
              && Where(listenFd, k.log) == Parent(AtProbe, childPid, hasClearThread) && k.procs.Keys <= {childPid}
              && NoOverlap(k.log) && EarlyWaitIsLast(k.log) && k.script == []
    ensures Forks(k.log) == Forks(old(k.log))
    ensures !NextOk(Rest(old(k.script))) ==> !gone && !AllReaped(k.log)
  {
    ghost var n;
    gone, n := EndHandler(k, childPid);
    ghost var reaped := NextOk(Rest(old(k.script))) && Rest(old(k.script))[0].pid == childPid;
    WhereEnded(listenFd, old(k.log), childPid, reaped, n, gone);
    EndedKeeps(old(k.log), childPid, reaped, n, gone);
  }

  /** fork, and the cleanup thread if there is none yet. */
  method StartHandler(k: Kernel, hasClearThread: bool) returns (childPid: int, threadNow: bool)
    requires k.procs.Keys == {}
    modifies k
    ensures k.log == old(k.log) + Started(childPid, hasClearThread, threadNow)
    ensures k.procs.Keys == if childPid > 0 then {childPid as nat} else {}
    ensures |k.script| <= |old(k.script)| && (hasClearThread ==> threadNow)
    ensures TwoOk(old(k.script)) && !hasClearThread ==> childPid > 0 && threadNow && k.script == old(k.script)[2..]
  {
    childPid := k.Fork();
    threadNow := hasClearThread;
    if !hasClearThread {
      threadNow := k.CreateThread();
    }
  }

  /** The next fork and the call after it succeed. */
  predicate TwoOk(script: seq<Choice>) {
    |script| >= 2 && script[0].ok && script[0].pid > 0 && script[1].ok
  }

  /** The calls that start a handler. */
  function Started(pid: int, hasThread: bool, threadNow: bool): seq<Call> {
    [Forked(pid, {})] + (if hasThread then [] else [ThreadCreated(threadNow)])
  }

  lemma StartedKeeps(listenFd: int, before: seq<Call>, previous: int, pid: int, hasThread: bool, threadNow: bool)
    requires OnCourse(listenFd, before, Parent(AtFork, previous, hasThread)) && (hasThread ==> threadNow)
    ensures var log := before + Started(pid, hasThread, threadNow);
            && OnCourse(listenFd, log, Parent(if threadNow then AtAccept else Left, pid, threadNow))
            && Forks(log) == Forks(before) + 1
  {
    WhereNext(listenFd, before, Forked(pid, {}));
    ForkedAlone(before, pid);
    var forked, log := before + [Forked(pid, {})], before + Started(pid, hasThread, threadNow);
    if hasThread {
      assert log == forked;
    } else {
      assert log == forked + [ThreadCreated(threadNow)];
      WhereNext(listenFd, forked, ThreadCreated(threadNow));
      QuietKeeps(forked, log);
    }
  }

  /** The whole loop, for any environment and as far as its script goes. The parent makes
      exactly the calls the automaton calls for, and stops only where it ends. No two
      handler processes ever exist together, not even one alive and one dead but
      unreaped: at every fork the parent has no child at all. Every connection gets a fork of
      its own, unless the parent is still polling for the handler before it. The price: a
      wait that does not reap is the last thing the parent does but poll; it neither forks
      nor waits again. */
  method Serve(k: Kernel, listenFd: int)
    requires k.procs == map[] && k.log == []
    modifies k
    ensures Where(listenFd, k.log).phase != Astray
    ensures k.script == [] || Where(listenFd, k.log).phase == Left
    ensures Forks(k.log) <= Connections(k.log) <= Forks(k.log) + 1
    ensures k.script != [] ==> Connections(k.log) == Forks(k.log)
    ensures NoOverlap(k.log)
    ensures exists pid :: k.procs.Keys <= {pid}
    ensures EarlyWaitIsLast(k.log) && (!AllReaped(k.log) ==> k.script == [])
    ensures FirstWaitEarly(old(k.script)) ==> Connections(k.log) == 2 && Forks(k.log) == 1 && !AllReaped(k.log)
  {
    var childPid: int := 0;
    var hasClearThread := false;
    ghost var start := k.script;
    var listened := k.Listen();
    WhereNext(listenFd, [], Listened(listened));
    QuietKeeps([], k.log);
    if !listened {
      EveryConnectionIsServed(listenFd, k.log);
      assert k.procs.Keys <= {0};
      return;
    }
    while k.script != []
      invariant OnCourse(listenFd, k.log, Parent(AtAccept, childPid, hasClearThread))
      invariant k.procs.Keys == if childPid > 0 then {childPid as nat} else {}
      invariant FirstWaitEarly(start) ==> BeforeEarlyWait(start, k.script, k.log, childPid, hasClearThread)
      decreases |k.script|
    {
      ghost var log := k.log;
      var r := Accept(k, listenFd, hasClearThread, childPid);
      QuietKeeps(log, k.log);
      if r == Leave {
        break;
      }
      if r == Again {
        continue;
      }
      if childPid > 0 {
        var gone := EndPrevious(k, listenFd, childPid, hasClearThread);
        if !gone {
          break;
        }
      }
      ghost var before, previous, had := k.log, childPid, hasClearThread;
      childPid, hasClearThread := StartHandler(k, hasClearThread);
      StartedKeeps(listenFd, before, previous, childPid, had, hasClearThread);
      if !hasClearThread {
        break;
      }
    }
    EveryConnectionIsServed(listenFd, k.log);
    assert k.procs.Keys <= {if childPid > 0 then childPid as nat else 0};
  }

  /** A run in which the wait for handler 7 returns early, handler 7 then exits, and two
      more connections are waiting: the parent never forks for them, nor for the second one. */
  method EarlyWaitRun() returns (connections: nat, forks: nat, unused: nat)
    ensures connections == 2 && forks == 1 && unused == 0
  {
    var ok := Choice({}, false, true, 7);
    var early := Choice({}, false, false, 0);
    var exits := Choice({7}, false, true, 8);
    var k := new Kernel([ok, ok, ok, ok, ok, ok, early, exits, ok, ok, ok]);
    Serve(k, 4);
    connections, forks, unused := Connections(k.log), Forks(k.log), |k.script|;
  }
}
