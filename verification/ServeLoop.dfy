/** The accept loop as sequential code (src/server.rs), over the shared state of
    the transition system and the limiter object: whatever the outside supplies,
    what it does is a run, so everything proved of runs holds of it. */
module ServeLoop {
  import opened Wrappers
  import opened Limiter
  import opened Server
  import opened Permits
  import opened Shutdown
  import opened Loop

  datatype Outcome = OkReturned | ErrReturned | StillServing

  /** `after` has the labels of `before`, and perhaps more after them. */
  ghost predicate Extends(before: seq<Label>, after: seq<Label>)
  {
    |before| <= |after| && forall i :: 0 <= i < |before| ==> after[i] == before[i]
  }

  class Process {
    const c: Cfg
    const limiter: PerIpLimiter
    var s: State
    ghost var run: seq<Label>

    ghost predicate Valid()
      reads this, limiter
    {
      && limiter.Valid() && limiter.cap == c.cap
      && limiter.counts == s.counts && limiter.live == Live(s)
      && Run(c, Init(c), run) == Some(s)
      && Accounted(c, s)
    }

    constructor (c: Cfg)
      ensures Valid() && fresh(limiter) && this.c == c && s == Init(c)
    {
      this.c := c;
      limiter := new PerIpLimiter(c.cap);
      s := Init(c);
      run := [];
      new;
      InitAccounted(c);
      PermitsBound(s.workers);
      assert Live(s) == multiset{};
    }

    method SettleAcquire()
      requires Valid() && Enabled(c, s, TryAcquire)
      modifies limiter
      ensures limiter.Valid()
      ensures limiter.counts == Do(c, s, TryAcquire).counts && limiter.live == Live(Do(c, s, TryAcquire))
    {
      LiveAfterAcquire(c, s);
      var attempt := limiter.TryAcquire(s.pc.ip);
    }

    method SettleDrop(l: Label)
      requires Valid() && Enabled(c, s, l) && DropsPermit(l)
      modifies limiter
      ensures limiter.Valid()
      ensures limiter.counts == Do(c, s, l).counts && limiter.live == Live(Do(c, s, l))
    {
      LiveAfterDrop(c, s, l);
      limiter.Drop(Permit(Dropped(s, l)));
    }

    /** What a step takes from the limiter or gives back to it. */
    method Settle(l: Label)
      requires Valid() && Enabled(c, s, l)
      modifies limiter
      ensures limiter.Valid()
      ensures limiter.counts == Do(c, s, l).counts && limiter.live == Live(Do(c, s, l))
    {
      if l.TryAcquire? {
        SettleAcquire();
      } else if DropsPermit(l) {
        SettleDrop(l);
      } else {
        LiveUnchanged(c, s, l);
      }
    }

    /** One atomic step; permits are taken from and dropped on the limiter. */
    method Step(l: Label)
      requires Valid() && Enabled(c, s, l)
      modifies this, limiter
      ensures Valid() && s == Do(c, old(s), l) && run == old(run) + [l] && Extends(old(run), run)
    {
      StepAccounted(c, s, l);
      RunOne(c, s, l);
      RunAppend(c, Init(c), run, [l]);
      Settle(l);
      s := Do(c, s, l);
      run := run + [l];
    }

    /** Other threads get in those of `steps` that are possible in their turn. */
    method Meanwhile(steps: seq<Label>)
      requires Valid()
      modifies this, limiter
      ensures Valid() && s.pc == old(s.pc) && Undisturbed(old(s), s) && Extends(old(run), run)
      ensures s == Interleaved(c, old(s), steps)
    {
      for i := 0 to |steps|
        invariant Valid() && s.pc == old(s.pc) && Undisturbed(old(s), s) && Extends(old(run), run)
        invariant Interleaved(c, old(s), steps) == Interleaved(c, s, steps[i..])
      {
        assert steps[i..][0] == steps[i] && steps[i..][1..] == steps[i + 1..];
        if OfOthers(steps[i]) && Enabled(c, s, steps[i]) {
          OthersKeepPc(c, s, steps[i]);
          Step(steps[i]);
        }
      }
    }

    /** One read of the pipe, after the k-th burst of what others get in before it. */
    method ReadPipe(bursts: seq<seq<Label>>, k: nat) returns (empty: bool)
      requires Valid() && s.pc == Drain && k <= |bursts|
      modifies this, limiter
      ensures Valid() && s.pc == Drain && Extends(old(run), run)
      ensures empty ==> s.pipe == 0 && DrainedBy(c, old(s), bursts[k..]) == s.(pc := Check)
      ensures !empty ==>
                DrainedBy(c, old(s), bursts[k..]) == DrainedBy(c, s, bursts[if k < |bursts| then k + 1 else k..])
      ensures !empty && k == |bursts| ==> s.pipe < old(s.pipe)
    {
      DrainedOnce(c, s, bursts, k);
      Meanwhile(if k < |bursts| then bursts[k] else []);
      empty := s.pipe == 0;
      if !empty {
        Step(DrainRead);
      }
    }

    /** Reads the pipe until nothing is left in it, be it while handlers write. */
    method DrainPipe(bursts: seq<seq<Label>>)
      requires Valid() && s.pc == Drain
      modifies this, limiter
      ensures Valid() && Extends(old(run), run)
      ensures s == DrainedBy(c, old(s), bursts)
      ensures s.pc == Check && s.pipe == 0 && Undisturbed(old(s), s)
      ensures bursts == [] ==> s == old(s).(pc := Check, pipe := 0)
    {
      DrainedAlone(c, s);
      var k := 0;
      var empty := false;
      assert bursts[0..] == bursts;
      while !empty
        invariant Valid() && s.pc == Drain && Extends(old(run), run) && k <= |bursts|
        invariant DrainedBy(c, old(s), bursts) ==
                  if empty then s.(pc := Check) else DrainedBy(c, s, bursts[k..])
        invariant empty ==> s.pipe == 0
        decreases !empty, |bursts| - k, s.pipe
      {
        empty := ReadPipe(bursts, k);
        k := if k < |bursts| then k + 1 else k;
      }
      Step(DrainEnd);
    }

    /** Hands a connection that holds a permit to a worker; not `done` if none has
        come for it yet. */
    method HandOver(outside: Outside, k: nat) returns (done: bool)
      requires Valid() && s.pc.SettingBlocking?
      modifies this, limiter
      ensures Valid() && s.accepted == old(s.accepted) && Extends(old(run), run)
      ensures s == HandedOver(c, old(s), outside, k)
      ensures if outside.blockingFails(k) then done && s.pc == ReturnedErr
              else if done then s.pc == Check
              else s.pc == Sending(old(s.pc.conn), old(s.pc.ip)) && !Enabled(c, s, Receive(outside.taker(k)))
    {
      if outside.blockingFails(k) {
        Step(SetBlockingFails);
        return true;
      }
      Step(SetBlocking);
      Meanwhile(outside.others(k));
      var taker := outside.taker(k);
      done := Enabled(c, s, Receive(taker));
      if done {
        Step(Receive(taker));
      }
    }

    /** An accepted connection: refused at the cap, or handed over. */
    method Judge(outside: Outside, k: nat) returns (done: bool)
      requires Valid() && s.pc.Acquiring?
      modifies this, limiter
      ensures Valid() && s.accepted == old(s.accepted) && Extends(old(run), run)
      ensures s == Judged(c, old(s), outside, k)
      ensures if done then s.pc == Check || (s.pc == ReturnedErr && outside.blockingFails(k + 1))
              else s.pc == Sending(old(s.pc.conn), old(s.pc.ip))
    {
      Meanwhile(outside.others(k));
      Step(TryAcquire);
      if s.pc == Check {
        return true;
      }
      done := HandOver(outside, k + 1);
    }

    /** From an incoming connection to the next look at the flag. */
    method Admit(outside: Outside, k: nat) returns (done: bool)
      requires Valid() && s.pc == Accept
      modifies this, limiter
      ensures Valid() && Extends(old(run), run)
      ensures s == Admitted(c, old(s), outside, k)
      ensures s.accepted == old(s.accepted) + if outside.accept(k).Accepted? then 1 else 0
      ensures outside.accept(k) == WouldBlock ==> done && s.pc == Check
      ensures outside.accept(k) == AcceptError ==> done && s.pc == ReturnedErr
      ensures if done then s.pc == Check || s.pc == ReturnedErr
              else outside.accept(k).Accepted? && s.pc == Sending(old(s.accepted), outside.accept(k).ip)
    {
      match outside.accept(k) {
        case WouldBlock =>
          Step(AcceptNothing);
          done := true;
        case AcceptError =>
          Step(AcceptFails);
          done := true;
        case Accepted(ip) =>
          Step(AcceptConn(ip));
          done := Judge(outside, k);
      }
    }

    /** A readable pipe is drained; one that has only broken ends the loop. */
    method AttendPipe(bursts: seq<seq<Label>>)
      requires Valid() && s.pc == Poll && c.polled
      modifies this, limiter
      ensures Valid() && Extends(old(run), run)
      ensures old(s.pipe) > 0 ==> s.pc == Check && s.pipe == 0 && Undisturbed(old(s), s)
      ensures old(s.pipe) > 0 && bursts == [] ==> s == old(s).(pc := Check, pipe := 0)
      ensures old(s.pipe) == 0 ==> s == old(s).(pc := Closing)
      ensures old(s.pipe) > 0 ==> s == DrainedBy(c, Do(c, old(s), PollPipe), bursts)
    {
      if s.pipe > 0 {
        Step(PollPipe);
        DrainPipe(bursts);
      } else {
        Step(PollPipeBroken);
      }
    }

    /** What the listener has to say, once the pipe has nothing. */
    method AttendListener(event: ListenerEvent, outside: Outside, k: nat) returns (done: bool)
      requires Valid() && s.pc == Poll && !PipeReadable(c, s)
      modifies this, limiter
      ensures Valid() && Extends(old(run), run)
      ensures match event
              case Fatal => done && s == old(s).(pc := ReturnedErr)
              case Nothing => done && s == old(s).(pc := Check)
              case Incoming => if done then s.pc == Check || s.pc == ReturnedErr else s.pc.Sending?
      ensures s == Listened(c, old(s), event, outside, k)
      ensures event == Incoming ==>
                s.accepted == old(s.accepted) + if outside.accept(k + 1).Accepted? then 1 else 0
      ensures event == Incoming && outside.accept(k + 1) == WouldBlock ==> s.pc == Check
      ensures event == Incoming && outside.accept(k + 1) == AcceptError ==> s.pc == ReturnedErr
    {
      done := true;
      match event {
        case Fatal => Step(PollFatal);
        case Nothing => Step(PollIdle);
        case Incoming =>
          Step(PollReady);
          Meanwhile(outside.others(k));
          done := Admit(outside, k + 1);
      }
    }

    /** What follows a `poll` that has returned; the pipe is looked at first. */
    method Attend(event: ListenerEvent, pipeBroken: bool, outside: Outside, k: nat) returns (done: bool)
      requires Valid() && s.pc == Poll
      modifies this, limiter
      ensures Valid() && Extends(old(run), run)
      ensures c.polled && old(s.pipe) > 0 ==> done && s.pc == Check && s.pipe == 0 && Undisturbed(old(s), s)
      ensures c.polled && old(s.pipe) > 0 && outside.bursts(k) == [] ==> s == old(s).(pc := Check, pipe := 0)
      ensures c.polled && old(s.pipe) == 0 && pipeBroken ==> done && s == old(s).(pc := Closing)
      ensures !(c.polled && (old(s.pipe) > 0 || pipeBroken)) ==>
                match event
                case Fatal => done && s == old(s).(pc := ReturnedErr)
                case Nothing => done && s == old(s).(pc := Check)
                case Incoming =>
                  && (if done then s.pc == Check || s.pc == ReturnedErr else s.pc.Sending?)
                  && s.accepted == old(s.accepted) + (if outside.accept(k + 1).Accepted? then 1 else 0)
                  && (outside.accept(k + 1) == WouldBlock ==> s.pc == Check)
                  && (outside.accept(k + 1) == AcceptError ==> s.pc == ReturnedErr)
      ensures s == Attended(c, old(s), event, pipeBroken, outside, k)
    {
      if c.polled && (s.pipe > 0 || pipeBroken) {
        AttendPipe(outside.bursts(k));
        done := true;
      } else {
        done := AttendListener(event, outside, k);
      }
    }

    /** One iteration: the flag, `poll`, and what it reports. One begun with the flag
        set leaves the loop; only the flag or a broken pipe makes it do so. */
    method Round(outside: Outside, k: nat) returns (serving: bool)
      requires Valid() && s.pc == Check
      modifies this, limiter
      ensures Valid() && Extends(old(run), run)
      ensures if serving then s.pc == Check
              else s.pc == Closing || s.pc == ReturnedErr || s.pc.Sending?
      ensures old(s.flag) ==> s.pc == Closing
      ensures s.pc == Closing ==>
                s.flag || (c.polled && outside.poll(k).Returned? && outside.poll(k).pipeBroken)
      ensures s.pc != Closing ==>
                match outside.poll(k)
                case Interrupted => s.pc == Check
                case Failed => s.pc == ReturnedErr
                case Returned(Nothing, _) => s.pc == Check
                case Returned(Fatal, _) => s.pc == ReturnedErr || (c.polled && s.pc == Check)
                case Returned(Incoming, _) =>
                  || (c.polled && s.pc == Check && s.pipe == 0 && s.accepted == old(s.accepted))
                  || match outside.accept(8 * k + 3)
                     case WouldBlock => s.pc == Check && s.accepted == old(s.accepted)
                     case AcceptError => s.pc == ReturnedErr && s.accepted == old(s.accepted)
                     case Accepted(_) => s.accepted == old(s.accepted) + 1
      ensures s == Iterated(c, old(s), outside, k)
    {
      Meanwhile(outside.others(8 * k));
      Step(CheckFlag);
      if s.pc == Closing {
        return false;
      }
      Meanwhile(outside.others(8 * k + 1));
      match outside.poll(k) {
        case Interrupted => Step(PollInterrupted);
        case Failed => Step(PollFails);
        case Returned(event, pipeBroken) =>
          var done := Attend(event, pipeBroken, outside, 8 * k + 2);
      }
      serving := s.pc == Check;
    }

    /** The iterations themselves. */
    method Follow(outside: Outside, rounds: nat) returns (ghost trace: seq<State>)
      requires Valid() && s.pc == Check
      modifies this, limiter
      ensures Valid() && Extends(old(run), run)
      ensures Iterations(c, trace, outside) && trace[0] == old(s) && trace[|trace| - 1] == s
      ensures |trace| == rounds + 1 || (|trace| <= rounds && s.pc != Check)
      ensures s.pc == Check || s.pc == Closing || s.pc == ReturnedErr || s.pc.Sending?
      ensures old(s.flag) && rounds > 0 ==> s.pc == Closing
    {
      trace := [s];
      var k := 0;
      var serving := true;
      while serving && k < rounds
        invariant Valid() && Extends(old(run), run)
        invariant |trace| == k + 1 && k <= rounds && trace[0] == old(s) && trace[k] == s
        invariant Iterations(c, trace, outside)
        invariant if serving then s.pc == Check else s.pc == Closing || s.pc == ReturnedErr || s.pc.Sending?
        invariant k > 0 && old(s.flag) ==> s.pc == Closing
        decreases rounds - k
      {
        serving := Round(outside, k);
        trace := trace + [s];
        k := k + 1;
      }
    }

    /** Returns once every worker has gone. */
    method JoinWorkers(others: seq<Label>)
      requires Valid() && s.pc == Closing
      modifies this, limiter
      ensures Valid() && Extends(old(run), run)
      ensures if forall w :: w in s.workers ==> Gone(w) then s.pc == ReturnedOk else s.pc == Closing
      ensures var met := Interleaved(c, old(s), others);
              s == if Enabled(c, met, JoinAll) then Do(c, met, JoinAll) else met
    {
      Meanwhile(others);
      if Enabled(c, s, JoinAll) {
        Step(JoinAll);
      }
    }

    /** The loop, followed for `rounds` of its iterations, and the joining of the
        workers; `trace` is what the iterations lead through. They go on until one
        does not come back to the flag. An `Ok` return leaves every worker gone and
        no permit held, and took at most one connection after the flag was set.
        With a pipe to poll, the loop has at no instant been blocked past a finished
        handler. Begun with the flag set, it leaves in its first round, and then
        waits only for a worker. */
    method Serve(outside: Outside, rounds: nat) returns (outcome: Outcome, ghost trace: seq<State>)
      requires Valid() && s.pc == Check && c.pipeRoom > 0 && c.cap > 0
      modifies this, limiter
      ensures Valid() && Extends(old(run), run)
      ensures Iterations(c, trace, outside) && trace[0] == old(s)
      ensures |trace| == rounds + 1 || (|trace| <= rounds && trace[|trace| - 1].pc != Check)
      ensures var last := trace[|trace| - 1];
              s == if last.pc == Closing then Joined(c, last, outside) else last
      ensures outcome == OkReturned <==> s.pc == ReturnedOk
      ensures outcome == ErrReturned <==> s.pc == ReturnedErr
      ensures outcome == OkReturned ==> (forall w :: w in s.workers ==> Gone(w)) && limiter.counts == map[]
      ensures s.late <= 1
      ensures c.polled ==> NeverLost(c, run)
      ensures old(s.flag) && rounds > 0 ==> s.pc == Closing || s.pc == ReturnedOk
      ensures s.pc == Closing ==> exists w :: w in s.workers && !Gone(w)
      ensures outcome == StillServing ==> s.pc == Check || s.pc.Sending? || s.pc == Closing
    {
      trace := Follow(outside, rounds);
      if s.pc == Closing {
        JoinWorkers(outside.joining);
      }
      outcome := if s.pc == ReturnedOk then OkReturned
                 else if s.pc == ReturnedErr then ErrReturned
                 else StillServing;
      assert Reachable(c, s);
      ReachableSignalled(c, s);
      if c.polled {
        RunNeverLost(c, run);
      }
      if s.pc == ReturnedOk {
        ReturnedOkIsDrained(c, s);
      }
    }
  }
}
