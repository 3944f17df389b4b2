/** What the accept loop (src/server.rs) makes of the state, iteration by iteration,
    given what the outside does at each occasion. */
module Loop {
  import opened Wrappers
  import opened Limiter
  import opened Server

  datatype ListenerEvent = Nothing | Fatal | Incoming

  /** How `poll` comes back, but for the pipe's readability, which is a matter of
      the pipe. */
  datatype PollOutcome = Interrupted | Failed | Returned(listener: ListenerEvent, pipeBroken: bool)

  datatype AcceptOutcome = Accepted(ip: Ip) | WouldBlock | AcceptError

  /** What the outside does at the k-th occasion: the steps other threads get in,
      those they get in between the reads of a drain, the results of system calls,
      and the worker that would take a connection. `joining` is what they get in
      while the loop waits for the workers. */
  datatype Outside = Outside(
    others: nat -> seq<Label>,
    bursts: nat -> seq<seq<Label>>,
    poll: nat -> PollOutcome,
    accept: nat -> AcceptOutcome,
    blockingFails: nat -> bool,
    taker: nat -> nat,
    joining: seq<Label>)

  /** Steps of signal handlers and workers; taking a connection is not theirs alone. */
  predicate OfOthers(l: Label)
  {
    l.HandlerStore? || l.HandlerWrite? || l.Finish? || l.Unwind? || l.WorkerExit?
  }

  lemma OthersKeepPc(c: Cfg, s: State, l: Label)
    requires OfOthers(l) && Enabled(c, s, l)
    ensures Do(c, s, l).pc == s.pc && Undisturbed(s, Do(c, s, l))
  {
  }

  /** Other threads leave to the loop what is its own, and never clear the flag. */
  predicate Undisturbed(before: State, after: State)
  {
    && after.accepted == before.accepted
    && after.admitted == before.admitted
    && after.started == before.started
    && after.late == before.late
    && (before.flag ==> after.flag)
  }

  /** Of `steps`, other threads take those that are possible in their turn. */
  function Interleaved(c: Cfg, s: State, steps: seq<Label>): (after: State)
    ensures after.pc == s.pc && Undisturbed(s, after)
    decreases |steps|
  {
    if steps == [] then s
    else if OfOthers(steps[0]) && Enabled(c, s, steps[0]) then Interleaved(c, Do(c, s, steps[0]), steps[1..])
    else Interleaved(c, s, steps[1..])
  }

  /** Whatever other threads can do one after the other, they can get in. */
  lemma {:induction false} InterleavedIsRun(c: Cfg, s: State, ls: seq<Label>)
    requires (forall l :: l in ls ==> OfOthers(l)) && Run(c, s, ls).Some?
    ensures Run(c, s, ls) == Some(Interleaved(c, s, ls))
    decreases |ls|
  {
    if ls == [] {
    } else {
      assert ls[0] in ls && forall l :: l in ls[1..] ==> l in ls;
      InterleavedIsRun(c, Do(c, s, ls[0]), ls[1..]);
    }
  }

  /** Handlers that finish in a burst have finished. */
  lemma {:induction false} InterleavedFinished(c: Cfg, s: State, steps: seq<Label>)
    ensures s.finished <= Interleaved(c, s, steps).finished
    decreases |steps|
  {
    if steps == [] {
    } else if OfOthers(steps[0]) && Enabled(c, s, steps[0]) {
      InterleavedFinished(c, Do(c, s, steps[0]), steps[1..]);
    } else {
      InterleavedFinished(c, s, steps[1..]);
    }
  }

  /** Reading the pipe until it is found empty. */
  function DrainedBy(c: Cfg, s: State, bursts: seq<seq<Label>>): (after: State)
    requires s.pc == Drain
    ensures after.pc == Check && after.pipe == 0 && Undisturbed(s, after)
    decreases |bursts|, s.pipe
  {
    if bursts == [] then
      if s.pipe == 0 then Do(c, s, DrainEnd) else DrainedBy(c, Do(c, s, DrainRead), [])
    else
      var met := Interleaved(c, s, bursts[0]);
      if met.pipe == 0 then Do(c, met, DrainEnd) else DrainedBy(c, Do(c, met, DrainRead), bursts[1..])
  }

  lemma {:induction false} DrainedAlone(c: Cfg, s: State)
    requires s.pc == Drain
    ensures DrainedBy(c, s, []) == s.(pc := Check, pipe := 0)
    decreases s.pipe
  {
    if s.pipe == 0 {
    } else {
      DrainedAlone(c, Do(c, s, DrainRead));
    }
  }

  lemma DrainedOnce(c: Cfg, s: State, bursts: seq<seq<Label>>, k: nat)
    requires s.pc == Drain && k <= |bursts|
    ensures var met := Interleaved(c, s, if k < |bursts| then bursts[k] else []);
            DrainedBy(c, s, bursts[k..]) ==
            if met.pipe == 0 then Do(c, met, DrainEnd)
            else DrainedBy(c, Do(c, met, DrainRead), bursts[if k < |bursts| then k + 1 else k..])
    ensures k == |bursts| ==> Interleaved(c, s, []) == s
  {
    if k < |bursts| {
      assert bursts[k..][0] == bursts[k] && bursts[k..][1..] == bursts[k + 1..];
    }
  }

  /** Handlers may finish between the reads of a drain. */
  lemma {:induction false} BurstsGetIn(c: Cfg, s: State, bursts: seq<seq<Label>>)
    requires s.pc == Drain
    ensures DrainedBy(c, s, bursts).finished >= s.finished
    ensures bursts != [] ==> DrainedBy(c, s, bursts).finished >= Interleaved(c, s, bursts[0]).finished
    decreases |bursts|, s.pipe
  {
    if bursts == [] {
      if s.pipe > 0 {
        BurstsGetIn(c, Do(c, s, DrainRead), []);
      }
    } else {
      var met := Interleaved(c, s, bursts[0]);
      InterleavedFinished(c, s, bursts[0]);
      if met.pipe > 0 {
        BurstsGetIn(c, Do(c, met, DrainRead), bursts[1..]);
      }
    }
  }

  /** A connection with a permit goes to the worker that comes for it, if one does. */
  function HandedOver(c: Cfg, s: State, outside: Outside, k: nat): State
    requires s.pc.SettingBlocking?
  {
    if outside.blockingFails(k) then Do(c, s, SetBlockingFails)
    else
      var offered := Interleaved(c, Do(c, s, SetBlocking), outside.others(k));
      var take := Receive(outside.taker(k));
      if Enabled(c, offered, take) then Do(c, offered, take) else offered
  }

  function Judged(c: Cfg, s: State, outside: Outside, k: nat): State
    requires s.pc.Acquiring?
  {
    var answered := Do(c, Interleaved(c, s, outside.others(k)), TryAcquire);
    if answered.pc == Check then answered else HandedOver(c, answered, outside, k + 1)
  }

  function Admitted(c: Cfg, s: State, outside: Outside, k: nat): State
    requires s.pc == Accept
  {
    match outside.accept(k)
    case WouldBlock => Do(c, s, AcceptNothing)
    case AcceptError => Do(c, s, AcceptFails)
    case Accepted(ip) => Judged(c, Do(c, s, AcceptConn(ip)), outside, k)
  }

  function Listened(c: Cfg, s: State, event: ListenerEvent, outside: Outside, k: nat): State
    requires s.pc == Poll && !PipeReadable(c, s)
  {
    match event
    case Fatal => Do(c, s, PollFatal)
    case Nothing => Do(c, s, PollIdle)
    case Incoming => Admitted(c, Interleaved(c, Do(c, s, PollReady), outside.others(k)), outside, k + 1)
  }

  function Attended(c: Cfg, s: State, event: ListenerEvent, pipeBroken: bool, outside: Outside, k: nat): State
    requires s.pc == Poll
  {
    if PipeReadable(c, s) then DrainedBy(c, Do(c, s, PollPipe), outside.bursts(k))
    else if c.polled && pipeBroken then Do(c, s, PollPipeBroken)
    else Listened(c, s, event, outside, k)
  }

  function Iterated(c: Cfg, s: State, outside: Outside, k: nat): State
    requires s.pc == Check
  {
    var looked := Do(c, Interleaved(c, s, outside.others(8 * k)), CheckFlag);
    if looked.pc == Closing then looked
    else
      var polling := Interleaved(c, looked, outside.others(8 * k + 1));
      match outside.poll(k)
      case Interrupted => Do(c, polling, PollInterrupted)
      case Failed => Do(c, polling, PollFails)
      case Returned(event, pipeBroken) => Attended(c, polling, event, pipeBroken, outside, 8 * k + 2)
  }

  function Joined(c: Cfg, s: State, outside: Outside): State
  {
    var met := Interleaved(c, s, outside.joining);
    if Enabled(c, met, JoinAll) then Do(c, met, JoinAll) else met
  }

  predicate Iteration(c: Cfg, before: State, after: State, outside: Outside, k: nat)
  {
    before.pc == Check && after == Iterated(c, before, outside, k)
  }

  /** The states that successive iterations lead through. */
  ghost predicate Iterations(c: Cfg, trace: seq<State>, outside: Outside)
  {
    trace != [] && forall k :: 0 <= k < |trace| - 1 ==> Iteration(c, trace[k], trace[k + 1], outside, k)
  }

  // ------------------------------------------------- what becomes of a client

  /** Permits counted for an address. */
  function CountOf(s: State, ip: Ip): nat
  {
    if ip in s.counts then s.counts[ip] else 0
  }

  /** A connection that holds a permit is dropped if its socket cannot be set up;
      otherwise the worker that comes for it takes it, or it waits for one. */
  lemma HandOverEnds(c: Cfg, s: State, outside: Outside, k: nat)
    requires s.pc.SettingBlocking?
    ensures var after := HandedOver(c, s, outside, k);
            && after.accepted == s.accepted && after.admitted == s.admitted
            && if outside.blockingFails(k) then
                 && after.pc == ReturnedErr && after.started == s.started
                 && s.pc.conn in after.ended && after.ended[s.pc.conn] == DroppedOnError
               else if after.started == s.started then
                 after.pc == Sending(s.pc.conn, s.pc.ip) && !Enabled(c, after, Receive(outside.taker(k)))
               else
                 && after.pc == Check
                 && after.started == s.started + [Start(s.pc.conn, outside.taker(k))]
                 && outside.taker(k) < |after.workers|
                 && after.workers[outside.taker(k)] == Handling(s.pc.conn, s.pc.ip)
  {
  }

  /** An accepted connection is refused exactly if its address is at the cap when
      the limiter is asked, and then leaves no trace but its end. */
  lemma JudgementEnds(c: Cfg, s: State, outside: Outside, k: nat)
    requires s.pc.Acquiring?
    ensures var asked, after := Interleaved(c, s, outside.others(k)), Judged(c, s, outside, k);
            && after.accepted == s.accepted
            && (after.pc == Check || after.pc == ReturnedErr || after.pc.Sending?)
            && if CountOf(asked, s.pc.ip) >= c.cap then
                 && after.pc == Check && after.admitted == s.admitted && after.started == s.started
                 && s.pc.conn in after.ended && after.ended[s.pc.conn] == RefusedByCap
                 && after.workers == asked.workers
                 && forall ip :: CountOf(after, ip) == CountOf(asked, ip)
               else
                 && after.admitted == s.admitted + [s.pc.conn]
                 && (after.pc == ReturnedErr <==> outside.blockingFails(k + 1))
                 && (after.started == s.started || after.started == s.started + [Start(s.pc.conn, outside.taker(k + 1))])
                 && (after.pc == Check <==> after.started != s.started)
  {
    var answered := Do(c, Interleaved(c, s, outside.others(k)), TryAcquire);
    if answered.pc.SettingBlocking? {
      HandOverEnds(c, answered, outside, k + 1);
    }
  }

  /** What `accept` yields is counted once; without a connection the loop begins
      anew, and on an error it returns. */
  lemma AdmissionEnds(c: Cfg, s: State, outside: Outside, k: nat)
    requires s.pc == Accept
    ensures var after := Admitted(c, s, outside, k);
            match outside.accept(k)
            case WouldBlock => after == s.(pc := Check)
            case AcceptError => after == s.(pc := ReturnedErr)
            case Accepted(_) =>
              && after.accepted == s.accepted + 1
              && (after.pc == Check || after.pc == ReturnedErr || after.pc.Sending?)
              && (after.admitted == s.admitted || after.admitted == s.admitted + [s.accepted])
  {
    match outside.accept(k) {
      case Accepted(ip) => JudgementEnds(c, Do(c, s, AcceptConn(ip)), outside, k);
      case _ =>
    }
  }

  /** An incoming connection is accepted, if `accept` has one after all; if it has
      none the loop begins anew, and if it fails the loop returns the error. */
  lemma IncomingAccepted(c: Cfg, s: State, outside: Outside, k: nat)
    requires s.pc == Poll && !PipeReadable(c, s)
    ensures var after := Listened(c, s, Incoming, outside, k);
            && after.accepted == s.accepted + (if outside.accept(k + 1).Accepted? then 1 else 0)
            && match outside.accept(k + 1)
               case WouldBlock => after.pc == Check
               case AcceptError => after.pc == ReturnedErr
               case Accepted(_) => after.pc == Check || after.pc == ReturnedErr || after.pc.Sending?
  {
    AdmissionEnds(c, Interleaved(c, Do(c, s, PollReady), outside.others(k)), outside, k + 1);
  }

  /** A client at every turn, and nothing else. */
  ghost predicate Busy(outside: Outside)
  {
    && (forall k :: outside.others(k) == [])
    && (forall k :: outside.poll(k) == Returned(Incoming, false))
    && (forall k :: outside.accept(k).Accepted?)
  }

  lemma BusyHandedOver(c: Cfg, s: State, outside: Outside, k: nat)
    requires s.pc.SettingBlocking? && outside.others(k) == []
    ensures var after := HandedOver(c, s, outside, k);
            after.accepted == s.accepted && after.flag == s.flag && after.pipe == s.pipe
  {
    var offered := Do(c, s, SetBlocking);
    assert Interleaved(c, offered, []) == offered;
  }

  lemma BusyJudged(c: Cfg, s: State, outside: Outside, k: nat)
    requires s.pc.Acquiring? && outside.others(k) == [] && outside.others(k + 1) == []
    ensures var after := Judged(c, s, outside, k);
            after.accepted == s.accepted && after.flag == s.flag && after.pipe == s.pipe
  {
    assert Interleaved(c, s, []) == s;
    var answered := Do(c, s, TryAcquire);
    if answered.pc.SettingBlocking? {
      BusyHandedOver(c, answered, outside, k + 1);
    }
  }

  lemma BusyListened(c: Cfg, s: State, outside: Outside, k: nat)
    requires Busy(outside) && s.pc == Poll && s.pipe == 0
    ensures var after := Listened(c, s, Incoming, outside, k);
            after.accepted == s.accepted + 1 && after.flag == s.flag && after.pipe == 0
  {
    var ready := Do(c, s, PollReady);
    assert outside.others(k) == [] && outside.others(k + 1) == [] && outside.others(k + 2) == [];
    assert Interleaved(c, ready, []) == ready;
    assert outside.accept(k + 1).Accepted?;
    BusyJudged(c, Do(c, ready, AcceptConn(outside.accept(k + 1).ip)), outside, k + 1);
  }

  lemma BusyIteration(c: Cfg, s: State, outside: Outside, k: nat)
    requires Busy(outside) && s.pc == Check && !s.flag && s.pipe == 0
    ensures var after := Iterated(c, s, outside, k);
            after.accepted == s.accepted + 1 && !after.flag && after.pipe == 0
  {
    var looked := Do(c, s, CheckFlag);
    assert outside.others(8 * k) == [] && outside.others(8 * k + 1) == [];
    assert Interleaved(c, s, []) == s && Interleaved(c, looked, []) == looked;
    assert outside.poll(k) == Returned(Incoming, false);
    BusyListened(c, looked, outside, 8 * k + 2);
  }

  predicate Idle(s: State)
  {
    !s.flag && s.pipe == 0
  }

  lemma BusyTrace(c: Cfg, trace: seq<State>, outside: Outside)
    requires Busy(outside) && Iterations(c, trace, outside)
    ensures forall k :: 0 <= k < |trace| - 1 && Idle(trace[k]) ==>
              Idle(trace[k + 1]) && trace[k + 1].accepted == trace[k].accepted + 1
  {
    forall k | 0 <= k < |trace| - 1 && Idle(trace[k])
      ensures Idle(trace[k + 1]) && trace[k + 1].accepted == trace[k].accepted + 1
    {
      assert Iteration(c, trace[k], trace[k + 1], outside, k);
      BusyIteration(c, trace[k], outside, k);
    }
  }

  lemma {:induction false} OneMoreEach(trace: seq<State>, k: nat)
    requires k < |trace| && Idle(trace[0])
    requires forall i :: 0 <= i < |trace| - 1 && Idle(trace[i]) ==>
               Idle(trace[i + 1]) && trace[i + 1].accepted == trace[i].accepted + 1
    ensures Idle(trace[k]) && trace[k].accepted == trace[0].accepted + k
  {
    if k == 0 {
    } else {
      OneMoreEach(trace, k - 1);
      assert trace[k] == trace[(k - 1) + 1];
    }
  }

  /** In such a world each iteration that is made accepts a connection. */
  lemma BusyLoop(c: Cfg, trace: seq<State>, outside: Outside, k: nat)
    requires Busy(outside) && Iterations(c, trace, outside) && k < |trace|
    requires !trace[0].flag && trace[0].pipe == 0
    ensures trace[k].accepted == trace[0].accepted + k
    ensures !trace[k].flag && trace[k].pipe == 0
  {
    BusyTrace(c, trace, outside);
    OneMoreEach(trace, k);
  }
}
