/** A signal is never lost, and once it is handled the server drains and stops. */
module Shutdown {
  import opened Wrappers
  import opened Limiter
  import opened Server
  import opened Permits

  /** Past the last look at the flag, and not yet back at it. */
  predicate BetweenChecks(pc: Pc)
  {
    pc.Poll? || pc.Accept? || pc.Acquiring? || pc.SettingBlocking? || pc.Sending?
  }

  ghost predicate Signalled(c: Cfg, s: State)
  {
    && (s.flag <==> s.pending + s.finished > 0)
    && (s.pipe > 0 ==> s.finished > 0)
    && (s.pc == Drain ==> s.flag)
    && (c.polled && s.finished > 0 && BetweenChecks(s.pc) ==> s.pipe > 0)
    && s.late <= 1
    && (!s.flag || s.pc == Poll || s.pc == Accept ==> s.late == 0)
  }

  /** No worker leaves before the channel is closed, nor the loop before all have. */
  ghost predicate Manned(s: State)
  {
    && (s.pc == ReturnedOk ==> forall w :: w in s.workers ==> Gone(w))
    && (!ChannelClosed(s) ==> forall w :: w in s.workers ==> !w.Exited?)
  }

  lemma StepSignalled(c: Cfg, s: State, l: Label)
    requires c.pipeRoom > 0
    requires Signalled(c, s) && Enabled(c, s, l)
    ensures Signalled(c, Do(c, s, l))
  {
  }

  lemma StepManned(c: Cfg, s: State, l: Label)
    requires Manned(s) && Enabled(c, s, l)
    ensures Manned(Do(c, s, l))
  {
    var after := Do(c, s, l);
    if l.Receive? || l.Finish? || l.Unwind? || l.WorkerExit? {
      assert forall w :: w in after.workers ==> w in s.workers || w == after.workers[l.worker];
      assert s.workers[l.worker] in s.workers;
    } else {
      assert after.workers == s.workers;
    }
  }

  lemma {:induction false} RunSignalled(c: Cfg, s: State, ls: seq<Label>)
    requires c.pipeRoom > 0
    requires Signalled(c, s) && Manned(s) && Run(c, s, ls).Some?
    ensures var end := Run(c, s, ls).value;
            Signalled(c, end) && Manned(end)
    decreases |ls|
  {
    if ls == [] {
    } else {
      StepSignalled(c, s, ls[0]);
      StepManned(c, s, ls[0]);
      RunSignalled(c, Do(c, s, ls[0]), ls[1..]);
    }
  }

  lemma ReachableSignalled(c: Cfg, s: State)
    requires c.pipeRoom > 0 && Reachable(c, s)
    ensures Signalled(c, s) && Manned(s)
  {
    var ls: seq<Label> :| Run(c, Init(c), ls) == Some(s);
    RunSignalled(c, Init(c), ls);
  }

  /** A handler has run to its end, yet nothing would wake the blocked loop. */
  predicate Lost(s: State)
  {
    s.finished > 0 && s.pc == Poll && s.pipe == 0
  }

  /** A shutdown can be lost exactly when there is no self-pipe to poll. */
  lemma NoLostShutdown(c: Cfg)
    requires c.pipeRoom > 0
    ensures (exists s :: Reachable(c, s) && Lost(s)) <==> !c.polled
  {
    if c.polled {
      forall s | Reachable(c, s) ensures !Lost(s) {
        ReachableSignalled(c, s);
      }
    } else {
      var s0 := Init(c);
      var s1 := Do(c, s0, CheckFlag);
      var s2 := Do(c, s1, HandlerStore);
      var s3 := Do(c, s2, HandlerWrite);
      assert Run(c, s0, []) == Some(s0);
      ReachableStep(c, s0, CheckFlag);
      ReachableStep(c, s1, HandlerStore);
      ReachableStep(c, s2, HandlerWrite);
      assert Lost(s3);
    }
  }

  /** No state that the run passes through is a lost one. */
  ghost predicate NeverLost(c: Cfg, ls: seq<Label>)
  {
    forall k :: 0 <= k <= |ls| ==>
      Run(c, Init(c), ls[..k]).Some? && !Lost(Run(c, Init(c), ls[..k]).value)
  }

  lemma RunNeverLost(c: Cfg, ls: seq<Label>)
    requires c.pipeRoom > 0 && c.polled && Run(c, Init(c), ls).Some?
    ensures NeverLost(c, ls)
  {
    forall k | 0 <= k <= |ls|
      ensures Run(c, Init(c), ls[..k]).Some? && !Lost(Run(c, Init(c), ls[..k]).value)
    {
      assert ls[..k] + ls[k..] == ls;
      RunAppend(c, Init(c), ls[..k], ls[k..]);
      ReachableSignalled(c, Run(c, Init(c), ls[..k]).value);
    }
  }

  /** A byte in the pipe means the flag is set, so a drain is followed by a check
      that leaves the loop; and after the flag is set at most one more connection
      is accepted. */
  lemma SignalSeen(c: Cfg, s: State)
    requires c.pipeRoom > 0 && Reachable(c, s)
    ensures s.pipe > 0 ==> s.flag
    ensures Enabled(c, s, DrainEnd) ==>
              Enabled(c, Do(c, s, DrainEnd), CheckFlag) &&
              Do(c, Do(c, s, DrainEnd), CheckFlag).pc == Closing
    ensures s.late <= 1
  {
    ReachableSignalled(c, s);
  }

  // ------------------------------------------------------------ termination

  function PcRank(pc: Pc): nat
  {
    match pc
    case Poll => 12
    case Accept => 10
    case Acquiring(_, _) => 9
    case SettingBlocking(_, _) => 8
    case Sending(_, _) => 7
    case Drain => 4
    case Check => 3
    case Closing => 1
    case ReturnedOk => 0
    case ReturnedErr => 0
  }

  function WorkerRank(w: Worker): nat
  {
    match w
    case Handling(_, _) => 2
    case Waiting => 1
    case Dead => 0
    case Exited => 0
  }

  function PoolRank(ws: seq<Worker>): nat
  {
    if ws == [] then 0 else PoolRank(ws[..|ws| - 1]) + WorkerRank(ws[|ws| - 1])
  }

  /** Steps a signalled server has left, at most, if no further signal comes. */
  function Rank(s: State): nat
  {
    PcRank(s.pc) + PoolRank(s.workers) + 3 * s.pending + s.pipe
  }

  lemma {:induction false} PoolUpdate(ws: seq<Worker>, w: nat, next: Worker)
    requires w < |ws|
    ensures PoolRank(ws[w := next]) + WorkerRank(ws[w]) == PoolRank(ws) + WorkerRank(next)
    decreases |ws|
  {
    var front := ws[..|ws| - 1];
    var after := ws[w := next];
    if w < |ws| - 1 {
      PoolUpdate(front, w, next);
      assert after[..|ws| - 1] == front[w := next];
    } else {
      assert after[..|ws| - 1] == front;
    }
  }

  lemma WorkerStepRank(c: Cfg, s: State, l: Label)
    requires Enabled(c, s, l) && s.flag
    requires l.Receive? || l.Finish? || l.Unwind? || l.WorkerExit?
    ensures Do(c, s, l).flag && Rank(Do(c, s, l)) + 1 <= Rank(s)
  {
    PoolUpdate(s.workers, l.worker, Do(c, s, l).workers[l.worker]);
  }

  lemma StepRank(c: Cfg, s: State, l: Label)
    requires Enabled(c, s, l) && s.flag
    ensures Do(c, s, l).flag
    ensures Rank(Do(c, s, l)) + 1 <= Rank(s) + if l.HandlerStore? then 4 else 0
  {
    if l.Receive? || l.Finish? || l.Unwind? || l.WorkerExit? {
      WorkerStepRank(c, s, l);
    } else {
      assert Do(c, s, l).workers == s.workers;
    }
  }

  /** Signal handlers started in a run. */
  function Signals(ls: seq<Label>): nat
  {
    if ls == [] then 0 else (if ls[0].HandlerStore? then 1 else 0) + Signals(ls[1..])
  }

  /** After the flag is set every run is short: it ends within the rank of the
      state, and each further signal buys at most four more steps. */
  lemma {:induction false} RunsAreShort(c: Cfg, s: State, ls: seq<Label>)
    requires s.flag && Run(c, s, ls).Some?
    ensures |ls| + Rank(Run(c, s, ls).value) <= Rank(s) + 4 * Signals(ls)
    decreases |ls|
  {
    if ls == [] {
    } else {
      StepRank(c, s, ls[0]);
      RunsAreShort(c, Do(c, s, ls[0]), ls[1..]);
    }
  }

  // ------------------------------------------------------------ what can fail

  /** Workers that no unwinding handler has taken down. */
  function Alive(ws: seq<Worker>): nat
  {
    if ws == [] then 0 else Alive(ws[..|ws| - 1]) + if ws[|ws| - 1].Dead? then 0 else 1
  }

  lemma {:induction false} AliveMember(ws: seq<Worker>)
    ensures Alive(ws) > 0 <==> exists w :: w in ws && !w.Dead?
    decreases |ws|
  {
    if ws == [] {
    } else {
      var front, last := ws[..|ws| - 1], ws[|ws| - 1];
      AliveMember(front);
      assert forall w :: w in ws <==> w in front || w == last;
    }
  }

  lemma {:induction false} AliveUpdate(ws: seq<Worker>, w: nat, next: Worker)
    requires w < |ws| && !ws[w].Dead?
    ensures Alive(ws[w := next]) + (if next.Dead? then 1 else 0) == Alive(ws)
    decreases |ws|
  {
    var front := ws[..|ws| - 1];
    var after := ws[w := next];
    if w < |ws| - 1 {
      AliveUpdate(front, w, next);
      assert after[..|ws| - 1] == front[w := next];
    } else {
      assert after[..|ws| - 1] == front;
    }
  }

  /** Faults on which the accept loop returns an error at once. */
  predicate Fault(l: Label)
  {
    l == PollFails || l == PollFatal || l == AcceptFails || l == SetBlockingFails
  }

  predicate Faultless(ls: seq<Label>)
  {
    forall l :: l in ls ==> !Fault(l)
  }

  /** Handlers that unwind in a run. */
  function Unwinds(ls: seq<Label>): nat
  {
    if ls == [] then 0 else (if ls[0].Unwind? then 1 else 0) + Unwinds(ls[1..])
  }

  lemma StepAlive(c: Cfg, s: State, l: Label)
    requires Enabled(c, s, l)
    ensures Alive(Do(c, s, l).workers) + (if l.Unwind? then 1 else 0) == Alive(s.workers)
    ensures s.pc != ReturnedErr && !Fault(l) ==> Do(c, s, l).pc != ReturnedErr
  {
    if l.Receive? || l.Finish? || l.Unwind? || l.WorkerExit? {
      AliveUpdate(s.workers, l.worker, Do(c, s, l).workers[l.worker]);
    } else {
      assert Do(c, s, l).workers == s.workers;
    }
  }

  /** A worker dies exactly where a handler unwinds, and only a fault makes the
      loop return an error. */
  lemma {:induction false} RunKeepsAlive(c: Cfg, s: State, ls: seq<Label>)
    requires Run(c, s, ls).Some?
    ensures var end := Run(c, s, ls).value;
            && Alive(end.workers) + Unwinds(ls) == Alive(s.workers)
            && (s.pc != ReturnedErr && Faultless(ls) ==> end.pc != ReturnedErr)
    decreases |ls|
  {
    if ls == [] {
    } else {
      StepAlive(c, s, ls[0]);
      RunKeepsAlive(c, Do(c, s, ls[0]), ls[1..]);
      assert ls == [ls[0]] + ls[1..];
    }
  }

  /** Looks at the flag in a run. */
  function Looks(ls: seq<Label>): nat
  {
    if ls == [] then 0 else (if ls[0].CheckFlag? then 1 else 0) + Looks(ls[1..])
  }

  /** Once the flag is set the loop looks at it once more at most, and so begins
      no second iteration; once it has been left, never again. */
  lemma {:induction false} LooksOnce(c: Cfg, s: State, ls: seq<Label>)
    requires s.flag && Run(c, s, ls).Some?
    ensures Looks(ls) <= if ChannelClosed(s) then 0 else 1
    decreases |ls|
  {
    if ls == [] {
    } else {
      LooksOnce(c, Do(c, s, ls[0]), ls[1..]);
    }
  }

  /** Connections accepted in a run. */
  function Accepts(ls: seq<Label>): nat
  {
    if ls == [] then 0 else (if ls[0].AcceptConn? then 1 else 0) + Accepts(ls[1..])
  }

  /** Once the flag is set at most one connection is accepted in any run, and only
      if the loop was already past its last look. */
  lemma {:induction false} AcceptsOnce(c: Cfg, s: State, ls: seq<Label>)
    requires s.flag && Run(c, s, ls).Some?
    ensures Accepts(ls) <= if s.pc == Poll || s.pc == Accept then 1 else 0
    ensures Run(c, s, ls).value.late == s.late + Accepts(ls)
    decreases |ls|
  {
    if ls == [] {
    } else {
      AcceptsOnce(c, Do(c, s, ls[0]), ls[1..]);
    }
  }

  /** Until the pipe is read it holds a byte for each finished handler, as far as
      it has room; what does not fit is dropped. */
  lemma {:induction false} PipeCounts(c: Cfg, s: State, ls: seq<Label>)
    requires c.polled && s.pipe <= c.pipeRoom && Run(c, s, ls).Some?
    requires forall l :: l in ls ==> !l.DrainRead?
    ensures var end := Run(c, s, ls).value;
            var bytes := s.pipe + (end.finished - s.finished);
            end.finished >= s.finished && end.pipe == if bytes <= c.pipeRoom then bytes else c.pipeRoom
    decreases |ls|
  {
    if ls == [] {
    } else {
      assert ls[0] in ls && forall l :: l in ls[1..] ==> l in ls;
      PipeCounts(c, Do(c, s, ls[0]), ls[1..]);
    }
  }

  /** Emptying the pipe takes a read for every 64 bytes begun. */
  lemma {:induction false} ReadsToEmpty(c: Cfg, s: State, n: nat)
    requires s.pc == Drain
    ensures Run(c, s, seq(n, _ => DrainRead) + [DrainEnd]).Some? <==> n == (s.pipe + 63) / 64
    decreases n
  {
    var labels := seq(n, _ => DrainRead) + [DrainEnd];
    if n == 0 {
      assert labels == [DrainEnd];
    } else {
      var fewer := seq(n - 1, _ => DrainRead) + [DrainEnd];
      assert labels[0] == DrainRead && labels[1..] == fewer;
      if s.pipe > 0 {
        ReadsToEmpty(c, Do(c, s, DrainRead), n - 1);
      }
    }
  }

  /** Steps that happen of themselves: no client, no signal and no fault needed.
      Handlers of connections return, since both directions have time-outs. */
  predicate Obliged(l: Label)
  {
    match l
    case HandlerWrite => true
    case CheckFlag => true
    case PollPipe => true
    case DrainRead => true
    case DrainEnd => true
    case AcceptNothing => true
    case TryAcquire => true
    case SetBlocking => true
    case Receive(_) => true
    case Finish(_) => true
    case WorkerExit(_) => true
    case JoinAll => true
    case _ => false
  }

  ghost predicate Quiet(c: Cfg, s: State)
  {
    forall l :: Obliged(l) ==> !Enabled(c, s, l)
  }

  /** Every worker has died, and the accept loop is parked on one it would need. */
  predicate Stranded(s: State)
  {
    s.pc.Sending? && forall w :: w in s.workers ==> w.Dead?
  }

  ghost predicate Settled(s: State)
  {
    && s.pending == 0
    && (Stranded(s) ||
        ((s.pc == ReturnedOk || s.pc == ReturnedErr) && forall w :: w in s.workers ==> Gone(w)))
  }

  lemma QuietWorker(c: Cfg, s: State, w: nat)
    requires Quiet(c, s) && w < |s.workers|
    ensures !s.workers[w].Handling?
    ensures s.workers[w] == Waiting ==> !ChannelClosed(s) && !s.pc.Sending?
  {
    assert !Enabled(c, s, Receive(w));
    assert !Enabled(c, s, Finish(w));
    assert !Enabled(c, s, WorkerExit(w));
  }

  /** The step the accept loop takes next when nothing outside intervenes. */
  function LoopStep(pc: Pc): Label
  {
    match pc
    case Check => CheckFlag
    case Poll => PollPipe
    case Drain => DrainEnd
    case Accept => AcceptNothing
    case Acquiring(_, _) => TryAcquire
    case SettingBlocking(_, _) => SetBlocking
    case _ => JoinAll
  }

  lemma QuietLoop(c: Cfg, s: State)
    requires Quiet(c, s) && (s.pc == Poll ==> PipeReadable(c, s))
    ensures s.pending == 0
    ensures s.pc.Sending? || s.pc == ReturnedOk || s.pc == ReturnedErr || s.pc == Closing
    ensures s.pc == Closing ==> exists w :: w in s.workers && !Gone(w)
  {
    assert !Enabled(c, s, HandlerWrite);
    assert !Enabled(c, s, DrainRead);
    assert !Enabled(c, s, LoopStep(s.pc));
  }

  /** A signalled server stands still only when it has returned and its workers
      are gone, or when no worker is left to take a parked connection. */
  lemma QuietExactly(c: Cfg, s: State)
    requires c.pipeRoom > 0 && c.polled && Reachable(c, s) && s.finished > 0
    ensures Quiet(c, s) <==> Settled(s)
  {
    ReachableSignalled(c, s);
    if Quiet(c, s) {
      QuietLoop(c, s);
      forall w | w in s.workers
        ensures !w.Handling? && (w == Waiting ==> !ChannelClosed(s) && !s.pc.Sending?)
      {
        var k :| 0 <= k < |s.workers| && s.workers[k] == w;
        QuietWorker(c, s, k);
      }
    }
    if Settled(s) {
      forall l | Obliged(l) ensures !Enabled(c, s, l) {
        if (l.Receive? || l.Finish? || l.WorkerExit?) && l.worker < |s.workers| {
          assert s.workers[l.worker] in s.workers;
        }
      }
    }
  }

  /** Returning `Ok` leaves no worker running, no permit and no limiter entry. */
  lemma ReturnedOkIsDrained(c: Cfg, s: State)
    requires c.pipeRoom > 0 && c.cap > 0 && Reachable(c, s) && s.pc == ReturnedOk
    ensures forall w :: w in s.workers ==> Gone(w)
    ensures s.counts == map[]
  {
    ReachableSignalled(c, s);
    PermitAccounting(c, s);
    PermitsBound(s.workers);
    assert Live(s) == multiset{};
    assert forall ip: Ip :: ip !in s.counts;
  }

  /** Returned in order, with nothing of the service left. */
  ghost predicate Drained(s: State)
  {
    && s.pc == ReturnedOk
    && s.pending == 0
    && s.late <= 1
    && (forall w :: w in s.workers ==> Gone(w))
    && s.counts == map[]
  }

  /** Standing still away from an error return, with a worker still alive, the
      server has returned `Ok` with everything drained. */
  lemma QuietIsDrained(c: Cfg, s: State)
    requires c.pipeRoom > 0 && c.cap > 0 && c.polled && Reachable(c, s) && s.finished > 0
    requires Quiet(c, s) && s.pc != ReturnedErr && Alive(s.workers) > 0
    ensures Drained(s)
  {
    ReachableSignalled(c, s);
    QuietExactly(c, s);
    AliveMember(s.workers);
    ReturnedOkIsDrained(c, s);
  }

  /** From a state with a finished handler, however the steps interleave: the run
      is bounded, and if it meets no fault and fewer handlers unwind than workers
      were alive, then where it can go no further of itself the server has
      returned `Ok` with everything drained. */
  lemma ShutdownCompletes(c: Cfg, s: State, ls: seq<Label>, end: State)
    requires c.pipeRoom > 0 && c.cap > 0 && c.polled && Reachable(c, s) && s.finished > 0
    requires Run(c, s, ls) == Some(end)
    ensures |ls| <= Rank(s) + 4 * Signals(ls)
    ensures s.pc != ReturnedErr && Faultless(ls) && Unwinds(ls) < Alive(s.workers) ==>
              (Quiet(c, end) ==> Drained(end))
    ensures Quiet(c, end) && end.pc != ReturnedErr && !Stranded(end) ==> Drained(end)
  {
    ReachableSignalled(c, s);
    RunsAreShort(c, s, ls);
    ReachableRun(c, s, ls, end);
    ReachableSignalled(c, end);
    FinishedGrows(c, s, ls);
    RunKeepsAlive(c, s, ls);
    QuietExactly(c, end);
    if end.pc == ReturnedOk {
      ReturnedOkIsDrained(c, end);
    }
    if Quiet(c, end) && end.pc != ReturnedErr && Alive(end.workers) > 0 {
      QuietIsDrained(c, end);
    }
  }

  /** A signalled server with a live worker, and no error returned. */
  ghost predicate Draining(c: Cfg, s: State)
  {
    Reachable(c, s) && s.finished > 0 && s.pc != ReturnedErr && Alive(s.workers) > 0
  }

  lemma StepDrains(c: Cfg, s: State, l: Label)
    requires c.pipeRoom > 0 && Draining(c, s) && Obliged(l) && Enabled(c, s, l)
    ensures Draining(c, Do(c, s, l)) && Rank(Do(c, s, l)) < Rank(s)
  {
    ReachableSignalled(c, s);
    StepRank(c, s, l);
    StepAlive(c, s, l);
    ReachableStep(c, s, l);
  }

  /** And it does get there: steps that happen of themselves lead from any such
      state to an `Ok` return with everything drained. */
  lemma {:induction false} ShutdownReached(c: Cfg, s: State) returns (ls: seq<Label>, end: State)
    requires c.pipeRoom > 0 && c.cap > 0 && c.polled && Draining(c, s)
    ensures forall l :: l in ls ==> Obliged(l)
    ensures |ls| <= Rank(s) && Run(c, s, ls) == Some(end) && Drained(end)
    decreases Rank(s)
  {
    if Quiet(c, s) {
      QuietIsDrained(c, s);
      ls, end := [], s;
    } else {
      var l :| Obliged(l) && Enabled(c, s, l);
      StepDrains(c, s, l);
      var rest, last := ShutdownReached(c, Do(c, s, l));
      ls, end := [l] + rest, last;
      assert ls[0] == l && ls[1..] == rest;
    }
  }

  lemma ReachableRun(c: Cfg, s: State, ls: seq<Label>, end: State)
    requires Reachable(c, s) && Run(c, s, ls) == Some(end)
    ensures Reachable(c, end)
  {
    var before: seq<Label> :| Run(c, Init(c), before) == Some(s);
    RunAppend(c, Init(c), before, ls);
  }

  lemma {:induction false} FinishedGrows(c: Cfg, s: State, ls: seq<Label>)
    requires Run(c, s, ls).Some?
    ensures s.finished <= Run(c, s, ls).value.finished
    decreases |ls|
  {
    if ls == [] {
    } else {
      FinishedGrows(c, Do(c, s, ls[0]), ls[1..]);
    }
  }

  // ------------------------------------------------------------ the stranded loop

  /** The first `k` workers have died of their connections, the rest wait. */
  ghost predicate Felled(c: Cfg, s: State, k: nat)
  {
    && s.pc == Check && !s.flag && s.pipe == 0
    && |s.workers| == c.workers && k <= c.workers
    && (forall w :: 0 <= w < k ==> s.workers[w] == Dead)
    && (forall w :: k <= w < c.workers ==> s.workers[w] == Waiting)
  }

  lemma Arrive(c: Cfg, s: State) returns (next: State)
    requires Reachable(c, s) && Accounted(c, s) && s.pc == Check && !s.flag && s.pipe == 0
    ensures Reachable(c, next) && Accounted(c, next)
    ensures next == s.(pc := Acquiring(s.accepted, 0), accepted := s.accepted + 1)
  {
    var polling := Advance(c, s, CheckFlag);
    var ready := Advance(c, polling, PollReady);
    next := Advance(c, ready, AcceptConn(0));
  }

  /** A connection from address 0, up to being offered to the workers. */
  lemma Offer(c: Cfg, s: State, k: nat) returns (next: State)
    requires c.cap > 0 && Reachable(c, s) && Accounted(c, s) && Felled(c, s, k)
    ensures Reachable(c, next) && Accounted(c, next)
    ensures next.pc == Sending(s.accepted, 0) && next.workers == s.workers && !next.flag && next.pipe == 0
  {
    var accepted := Arrive(c, s);
    PermitsBound(s.workers);
    AcquireAnswers(c, accepted, 0);
    var granted := Advance(c, accepted, TryAcquire);
    next := Advance(c, granted, SetBlocking);
  }

  lemma FellOne(c: Cfg, before: State, k: nat) returns (s: State)
    requires c.cap > 0 && Reachable(c, before) && Accounted(c, before) && Felled(c, before, k)
    requires k < c.workers
    ensures Reachable(c, s) && Accounted(c, s) && Felled(c, s, k + 1)
  {
    var offered := Offer(c, before, k);
    var taken := Advance(c, offered, Receive(k));
    s := Advance(c, taken, Unwind(k));
    assert s.workers == before.workers[k := Dead];
  }

  lemma {:induction false} Fell(c: Cfg, k: nat) returns (s: State)
    requires c.cap > 0 && k <= c.workers
    ensures Reachable(c, s) && Accounted(c, s) && Felled(c, s, k)
    decreases k
  {
    if k == 0 {
      s := Init(c);
      InitAccounted(c);
      assert Run(c, s, []) == Some(s);
    } else {
      s := Fell(c, k - 1);
      s := FellOne(c, s, k - 1);
    }
  }

  /** Whatever the configuration, enough unwinding handlers strand the loop, and a
      signal handled after that changes nothing. */
  lemma StrandedArises(c: Cfg)
    requires c.cap > 0
    ensures exists s :: Reachable(c, s) && Stranded(s) && s.finished > 0
  {
    var felled := Fell(c, c.workers);
    var parked := Offer(c, felled, c.workers);
    var signalled := Advance(c, parked, HandlerStore);
    var s := Advance(c, signalled, HandlerWrite);
    assert Stranded(s);
  }

  lemma StrandedStep(c: Cfg, s: State, l: Label)
    requires Stranded(s) && Enabled(c, s, l)
    ensures Do(c, s, l).pc == s.pc && Do(c, s, l).workers == s.workers && Do(c, s, l).accepted == s.accepted
  {
    assert forall w :: 0 <= w < |s.workers| ==> s.workers[w] in s.workers;
  }

  /** A stranded loop stays where it is in every run: it accepts nothing more and
      never returns, signal or not. */
  lemma {:induction false} StrandedForever(c: Cfg, s: State, ls: seq<Label>)
    requires Stranded(s) && Run(c, s, ls).Some?
    ensures var end := Run(c, s, ls).value;
            Stranded(end) && end.pc == s.pc && end.accepted == s.accepted
    decreases |ls|
  {
    if ls == [] {
    } else {
      StrandedStep(c, s, ls[0]);
      StrandedForever(c, Do(c, s, ls[0]), ls[1..]);
    }
  }
}
