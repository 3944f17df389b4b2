/** Every permit is held by the accept loop or by a worker, and the limiter's map
    counts exactly those, in every state of every run. */
module Permits {
  import opened Wrappers
  import opened Limiter
  import opened Server
  import Config

  /** The accept loop holds the permit of a connection it has admitted. */
  predicate HoldsPermit(pc: Pc)
  {
    pc.SettingBlocking? || pc.Sending?
  }

  function WorkerPermits(ws: seq<Worker>): multiset<Ip>
  {
    if ws == [] then multiset{}
    else
      var last := ws[|ws| - 1];
      if last.Handling? then WorkerPermits(ws[..|ws| - 1]) + multiset{last.ip}
      else WorkerPermits(ws[..|ws| - 1])
  }

  function Live(s: State): multiset<Ip>
  {
    if HoldsPermit(s.pc) then WorkerPermits(s.workers) + multiset{s.pc.ip} else WorkerPermits(s.workers)
  }

  lemma {:induction false} PermitTaken(ws: seq<Worker>, w: nat, conn: Conn, ip: Ip)
    requires w < |ws| && !ws[w].Handling?
    ensures WorkerPermits(ws[w := Handling(conn, ip)]) == WorkerPermits(ws) + multiset{ip}
    decreases |ws|
  {
    var front, after := ws[..|ws| - 1], ws[w := Handling(conn, ip)];
    if w < |ws| - 1 {
      PermitTaken(front, w, conn, ip);
      assert after[..|ws| - 1] == front[w := Handling(conn, ip)];
    } else {
      assert after[..|ws| - 1] == front;
    }
  }

  lemma PermitDropped(ws: seq<Worker>, w: nat, next: Worker)
    requires w < |ws| && ws[w].Handling? && !next.Handling?
    ensures ws[w].ip in WorkerPermits(ws)
    ensures WorkerPermits(ws[w := next]) == WorkerPermits(ws) - multiset{ws[w].ip}
  {
    PermitTaken(ws[w := next], w, ws[w].conn, ws[w].ip);
    assert ws[w := next][w := Handling(ws[w].conn, ws[w].ip)] == ws;
  }

  lemma PermitsSame(ws: seq<Worker>, w: nat, next: Worker)
    requires w < |ws| && !ws[w].Handling? && !next.Handling?
    ensures WorkerPermits(ws[w := next]) == WorkerPermits(ws)
  {
    PermitTaken(ws, w, 0, 0);
    PermitTaken(ws[w := next], w, 0, 0);
    assert ws[w := next][w := Handling(0, 0)] == ws[w := Handling(0, 0)];
    assert WorkerPermits(ws) + multiset{0} - multiset{0} == WorkerPermits(ws);
    assert WorkerPermits(ws[w := next]) + multiset{0} - multiset{0} == WorkerPermits(ws[w := next]);
  }

  lemma {:induction false} PermitsBound(ws: seq<Worker>)
    ensures |WorkerPermits(ws)| <= |ws|
    ensures (forall w :: w in ws ==> !w.Handling?) ==> WorkerPermits(ws) == multiset{}
  {
    if ws == [] {
    } else {
      PermitsBound(ws[..|ws| - 1]);
      assert forall w :: w in ws[..|ws| - 1] ==> w in ws;
      assert ws[|ws| - 1] in ws;
    }
  }

  ghost predicate Accounted(c: Cfg, s: State)
  {
    && |s.workers| == c.workers
    && Accounts(s.counts, c.cap, Live(s))
    && (c.cap > 0 ==> Pruned(s.counts))
  }

  lemma InitAccounted(c: Cfg)
    ensures Accounted(c, Init(c))
  {
    PermitsBound(Init(c).workers);
    assert Live(Init(c)) == multiset{};
  }

  /** The steps at which a permit is dropped. */
  predicate DropsPermit(l: Label)
  {
    l.Finish? || l.Unwind? || l.SetBlockingFails?
  }

  function Dropped(s: State, l: Label): Ip
  {
    match l
    case Finish(w) => if w < |s.workers| && s.workers[w].Handling? then s.workers[w].ip else 0
    case Unwind(w) => if w < |s.workers| && s.workers[w].Handling? then s.workers[w].ip else 0
    case _ => if s.pc.SettingBlocking? then s.pc.ip else 0
  }

  lemma LiveAfterLetGo(s: State, w: nat, next: Worker, end: End)
    requires w < |s.workers| && s.workers[w].Handling? && !next.Handling?
    ensures s.workers[w].ip in Live(s)
    ensures Live(LetGo(s, w, next, end)) == Live(s) - multiset{s.workers[w].ip}
  {
    PermitDropped(s.workers, w, next);
  }

  lemma LiveAfterReceive(c: Cfg, s: State, w: nat)
    requires Enabled(c, s, Receive(w))
    ensures Live(Do(c, s, Receive(w))) == Live(s)
  {
    PermitTaken(s.workers, w, s.pc.conn, s.pc.ip);
  }

  lemma LiveAfterExit(c: Cfg, s: State, w: nat)
    requires Enabled(c, s, WorkerExit(w))
    ensures Live(Do(c, s, WorkerExit(w))) == Live(s)
  {
    PermitsSame(s.workers, w, Exited);
  }

  lemma LiveAfterFailure(c: Cfg, s: State)
    requires Enabled(c, s, SetBlockingFails)
    ensures s.pc.ip in Live(s)
    ensures Live(Do(c, s, SetBlockingFails)) == Live(s) - multiset{s.pc.ip}
  {
  }

  lemma LiveAfterAcquire(c: Cfg, s: State)
    requires Enabled(c, s, TryAcquire)
    ensures var granted := Acquire(s.counts, c.cap, s.pc.ip).1;
            Live(Do(c, s, TryAcquire)) == if granted then Live(s) + multiset{s.pc.ip} else Live(s)
    ensures Do(c, s, TryAcquire).counts == Acquire(s.counts, c.cap, s.pc.ip).0
  {
  }

  lemma AcquireStepAccounted(c: Cfg, s: State)
    requires Accounted(c, s) && Enabled(c, s, TryAcquire)
    ensures Accounted(c, Do(c, s, TryAcquire))
  {
    AcquireAccounts(s.counts, c.cap, Live(s), s.pc.ip);
    LiveAfterAcquire(c, s);
  }

  lemma LiveOtherwise(c: Cfg, s: State, l: Label)
    requires Enabled(c, s, l)
    requires !DropsPermit(l) && !l.TryAcquire? && !l.Receive? && !l.WorkerExit?
    ensures Do(c, s, l).workers == s.workers && Do(c, s, l).counts == s.counts
    ensures Live(Do(c, s, l)) == Live(s)
  {
    assert HoldsPermit(Do(c, s, l).pc) <==> HoldsPermit(s.pc);
  }

  lemma LiveUnchanged(c: Cfg, s: State, l: Label)
    requires Enabled(c, s, l) && !DropsPermit(l) && !l.TryAcquire?
    ensures Live(Do(c, s, l)) == Live(s)
    ensures Do(c, s, l).counts == s.counts && |Do(c, s, l).workers| == |s.workers|
  {
    if l.Receive? {
      LiveAfterReceive(c, s, l.worker);
    } else if l.WorkerExit? {
      LiveAfterExit(c, s, l.worker);
    } else {
      LiveOtherwise(c, s, l);
    }
  }

  lemma LiveAfterDrop(c: Cfg, s: State, l: Label)
    requires Enabled(c, s, l) && DropsPermit(l)
    ensures Dropped(s, l) in Live(s)
    ensures Live(Do(c, s, l)) == Live(s) - multiset{Dropped(s, l)}
    ensures Do(c, s, l).counts == Release(s.counts, Dropped(s, l)).counts
    ensures |Do(c, s, l).workers| == |s.workers|
  {
    if l.Finish? {
      LiveAfterLetGo(s, l.worker, Waiting, HandledBy(l.worker));
    } else if l.Unwind? {
      LiveAfterLetGo(s, l.worker, Dead, UnwoundIn(l.worker));
    } else {
      LiveAfterFailure(c, s);
    }
  }

  lemma DropAccounted(c: Cfg, s: State, l: Label)
    requires Accounted(c, s) && Enabled(c, s, l) && DropsPermit(l)
    ensures Release(s.counts, Dropped(s, l)).clean
    ensures Accounted(c, Do(c, s, l))
  {
    LiveAfterDrop(c, s, l);
    ReleaseAccounts(s.counts, c.cap, Live(s), Dropped(s, l));
  }

  lemma StepAccounted(c: Cfg, s: State, l: Label)
    requires Accounted(c, s) && Enabled(c, s, l)
    ensures Accounted(c, Do(c, s, l))
  {
    if DropsPermit(l) {
      DropAccounted(c, s, l);
    } else if l.TryAcquire? {
      AcquireStepAccounted(c, s);
    } else {
      LiveUnchanged(c, s, l);
    }
  }

  /** One step along a run. */
  lemma Advance(c: Cfg, s: State, l: Label) returns (next: State)
    requires Reachable(c, s) && Accounted(c, s) && Enabled(c, s, l)
    ensures next == Do(c, s, l) && Reachable(c, next) && Accounted(c, next)
  {
    next := Do(c, s, l);
    ReachableStep(c, s, l);
    StepAccounted(c, s, l);
  }

  lemma {:induction false} RunAccounted(c: Cfg, s: State, ls: seq<Label>)
    requires Accounted(c, s) && Run(c, s, ls).Some?
    ensures Accounted(c, Run(c, s, ls).value)
    decreases |ls|
  {
    if ls == [] {
    } else {
      StepAccounted(c, s, ls[0]);
      RunAccounted(c, Do(c, s, ls[0]), ls[1..]);
    }
  }

  /** In every reachable state each address's count is its live permits, an entry
      exists exactly where there is one, no count exceeds the cap, and whoever
      drops a permit next, be it by unwinding or on an error, finds its entry. */
  lemma PermitAccounting(c: Cfg, s: State)
    requires Reachable(c, s) && c.cap > 0
    ensures forall ip: Ip :: ip in s.counts <==> Live(s)[ip] > 0
    ensures forall ip :: ip in s.counts ==> s.counts[ip] as int == Live(s)[ip] && 0 < s.counts[ip] <= c.cap
    ensures forall l :: Enabled(c, s, l) && DropsPermit(l) ==> Release(s.counts, Dropped(s, l)).clean
  {
    var ls: seq<Label> :| Run(c, Init(c), ls) == Some(s);
    InitAccounted(c);
    RunAccounted(c, Init(c), ls);
    forall ip: Ip ensures ip in s.counts <==> Live(s)[ip] > 0 {
      assert Balanced(s.counts, c.cap, Live(s), ip);
    }
    forall ip | ip in s.counts
      ensures s.counts[ip] as int == Live(s)[ip] && 0 < s.counts[ip] <= c.cap
    {
      assert Balanced(s.counts, c.cap, Live(s), ip);
    }
    forall l | Enabled(c, s, l) && DropsPermit(l)
      ensures Release(s.counts, Dropped(s, l)).clean
    {
      DropAccounted(c, s, l);
    }
  }

  // --------------------------------------------------- the neutralising cap

  lemma LiveBound(c: Cfg, s: State)
    requires Accounted(c, s)
    ensures |Live(s)| <= c.workers + 1
    ensures s.pc.Acquiring? ==> |Live(s)| <= c.workers
  {
    PermitsBound(s.workers);
  }

  ghost predicate NoneRefused(s: State)
  {
    forall i :: i in s.ended ==> s.ended[i] != RefusedByCap
  }

  lemma AcquireGranted(c: Cfg, s: State)
    requires Accounted(c, s) && s.pc.Acquiring? && c.cap > c.workers
    ensures Acquire(s.counts, c.cap, s.pc.ip).1
  {
    LiveBound(c, s);
    AcquireAccounts(s.counts, c.cap, Live(s), s.pc.ip);
    assert Live(s)[s.pc.ip] <= |Live(s)|;
  }

  lemma StepNeverRefuses(c: Cfg, s: State, l: Label)
    requires Accounted(c, s) && NoneRefused(s) && Enabled(c, s, l)
    requires c.cap > c.workers
    ensures NoneRefused(Do(c, s, l))
  {
    if l.TryAcquire? {
      AcquireGranted(c, s);
      assert Do(c, s, TryAcquire).ended == s.ended;
    }
  }

  lemma {:induction false} RunNeverRefuses(c: Cfg, s: State, ls: seq<Label>)
    requires Accounted(c, s) && NoneRefused(s) && Run(c, s, ls).Some?
    requires c.cap > c.workers
    ensures NoneRefused(Run(c, s, ls).value)
    decreases |ls|
  {
    if ls == [] {
    } else {
      StepNeverRefuses(c, s, ls[0]);
      StepAccounted(c, s, ls[0]);
      RunNeverRefuses(c, Do(c, s, ls[0]), ls[1..]);
    }
  }

  /** The first `k` workers handle connections from address 0, the rest wait. */
  ghost predicate Filled(c: Cfg, s: State, k: nat)
  {
    && s.pc == Check && !s.flag && s.pipe == 0
    && |s.workers| == c.workers
    && k <= c.workers
    && (forall w :: 0 <= w < k ==> s.workers[w].Handling? && s.workers[w].ip == 0)
    && (forall w :: k <= w < c.workers ==> s.workers[w] == Waiting)
  }

  lemma {:induction false} FilledLive(ws: seq<Worker>, k: nat)
    requires k <= |ws|
    requires forall w :: 0 <= w < k ==> ws[w].Handling? && ws[w].ip == 0
    requires forall w :: k <= w < |ws| ==> ws[w] == Waiting
    ensures WorkerPermits(ws)[0] == k == |WorkerPermits(ws)|
    decreases |ws|
  {
    if ws == [] {
    } else {
      FilledLive(ws[..|ws| - 1], if k == |ws| then k - 1 else k);
    }
  }

  lemma AcquireAnswers(c: Cfg, s: State, k: nat)
    requires Accounted(c, s) && s.pc.Acquiring? && WorkerPermits(s.workers)[s.pc.ip] == k
    ensures Acquire(s.counts, c.cap, s.pc.ip).1 <==> k < c.cap
    ensures k >= c.cap ==> s.pc.ip in Acquire(s.counts, c.cap, s.pc.ip).0
  {
    AcquireAccounts(s.counts, c.cap, Live(s), s.pc.ip);
  }

  /** One more connection from address 0, up to the limiter's answer. */
  lemma Knock(c: Cfg, s: State, k: nat) returns (next: State)
    requires Reachable(c, s) && Accounted(c, s) && Filled(c, s, k)
    ensures Reachable(c, next) && Accounted(c, next)
    ensures next.workers == s.workers && !next.flag && next.pipe == 0
    ensures if k < c.cap then next.pc == SettingBlocking(s.accepted, 0)
            else 0 in next.counts && s.accepted in next.ended && next.ended[s.accepted] == RefusedByCap
  {
    var s1 := Advance(c, s, CheckFlag);
    var s2 := Advance(c, s1, PollReady);
    var s3 := Advance(c, s2, AcceptConn(0));
    FilledLive(s.workers, k);
    AcquireAnswers(c, s3, k);
    next := Advance(c, s3, TryAcquire);
  }

  lemma FillOne(c: Cfg, before: State, k: nat) returns (s: State)
    requires Reachable(c, before) && Accounted(c, before) && Filled(c, before, k)
    requires k < c.workers && k < c.cap
    ensures Reachable(c, s) && Accounted(c, s) && Filled(c, s, k + 1)
  {
    var knocked := Knock(c, before, k);
    var blocking := Advance(c, knocked, SetBlocking);
    assert blocking.workers == before.workers && blocking.workers[k] == Waiting;
    s := Advance(c, blocking, Receive(k));
    assert s.workers == before.workers[k := Handling(before.accepted, 0)];
  }

  lemma {:induction false} Fill(c: Cfg, k: nat) returns (s: State)
    requires k <= c.workers && k <= c.cap
    ensures Reachable(c, s) && Accounted(c, s) && Filled(c, s, k)
    decreases k
  {
    if k == 0 {
      s := Init(c);
      InitAccounted(c);
      assert Run(c, s, []) == Some(s);
    } else {
      s := Fill(c, k - 1);
      s := FillOne(c, s, k - 1);
    }
  }

  /** A cap of zero would leave an entry behind with no permit to remove it. */
  lemma ZeroCapLeaks(c: Cfg)
    requires c.cap == 0
    ensures exists s :: Reachable(c, s) && 0 in s.counts && Live(s)[0] == 0
  {
    var s := Fill(c, 0);
    var next := Knock(c, s, 0);
    assert Balanced(next.counts, 0, Live(next), 0);
  }

  /** A refusal can happen exactly when the cap is at most the number of workers:
      `workers + 1` is the least cap that never refuses. */
  lemma NeutralisingCap(c: Cfg)
    ensures (exists s :: Reachable(c, s) && !NoneRefused(s)) <==> c.cap <= c.workers
  {
    if c.cap <= c.workers {
      var s := Fill(c, c.cap);
      var next := Knock(c, s, c.cap);
    } else {
      forall s | Reachable(c, s) ensures NoneRefused(s) {
        var ls: seq<Label> :| Run(c, Init(c), ls) == Some(s);
        InitAccounted(c);
        RunNeverRefuses(c, Init(c), ls);
      }
    }
  }

  /** Of the configurations that validate, exactly the one with the greatest cap
      never refuses; the derived cap always can. */
  lemma ConfiguredCap(c: Cfg, workersFlag: Config.Flag, capFlag: Config.Flag)
    requires Config.ValidateWorkers(workersFlag) == Some(c.workers)
    requires Config.ValidateMaxConnsPerIp(capFlag, c.workers) == Some(c.cap as int)
    ensures 1 <= c.cap as int <= c.workers + 1
    ensures (exists s :: Reachable(c, s) && !NoneRefused(s)) <==> c.cap as int != c.workers + 1
    ensures capFlag == Config.Absent ==> exists s :: Reachable(c, s) && !NoneRefused(s)
  {
    Config.CapInRange(workersFlag, capFlag);
    NeutralisingCap(c);
  }

  /** Never more than `workers + 1` permits are live, and with a cap above the
      number of workers one address can hold all of them. */
  lemma PermitCeiling(c: Cfg)
    ensures forall s :: Reachable(c, s) ==> |Live(s)| <= c.workers + 1
    ensures (exists s :: Reachable(c, s) && Live(s)[0] == c.workers + 1) <==> c.cap > c.workers
  {
    forall s | Reachable(c, s) ensures |Live(s)| <= c.workers + 1 && Live(s)[0] <= c.cap {
      var ls: seq<Label> :| Run(c, Init(c), ls) == Some(s);
      InitAccounted(c);
      RunAccounted(c, Init(c), ls);
      LiveBound(c, s);
      assert Balanced(s.counts, c.cap, Live(s), 0);
    }
    if c.cap > c.workers {
      var s := Fill(c, c.workers);
      var next := Knock(c, s, c.workers);
      FilledLive(s.workers, c.workers);
      assert Live(next)[0] == c.workers + 1;
    }
  }
}
