/** No connection is lost or handled twice, and handling starts in the order in
    which connections were admitted. */
module Connections {
  import opened Wrappers
  import opened Server

  predicate HeldByLoop(s: State, i: Conn)
  {
    (s.pc.Acquiring? || s.pc.SettingBlocking? || s.pc.Sending?) && s.pc.conn == i
  }

  predicate HandledIn(s: State, i: Conn, w: nat)
  {
    w < |s.workers| && s.workers[w].Handling? && s.workers[w].conn == i
  }

  /** Exactly one of: ended one way or another, held by the accept loop, or being
      handled by one worker. */
  ghost predicate InOnePlace(s: State, i: Conn)
  {
    && (i in s.ended || HeldByLoop(s, i) || exists w :: HandledIn(s, i, w))
    && !(i in s.ended && HeldByLoop(s, i))
    && (forall w :: HandledIn(s, i, w) ==> i !in s.ended && !HeldByLoop(s, i))
    && (forall w, v :: HandledIn(s, i, w) && HandledIn(s, i, v) ==> w == v)
  }

  ghost predicate Nowhere(s: State, i: Conn)
  {
    i !in s.ended && !HeldByLoop(s, i) && forall w :: !HandledIn(s, i, w)
  }

  ghost predicate Conserved(s: State)
  {
    && (forall i: Conn :: i < s.accepted ==> InOnePlace(s, i))
    && (forall i: Conn :: i >= s.accepted ==> Nowhere(s, i))
  }

  lemma PlaceKept(s: State, after: State, i: Conn)
    requires after.workers == s.workers
    requires (i in after.ended <==> i in s.ended) && (HeldByLoop(after, i) <==> HeldByLoop(s, i))
    ensures InOnePlace(after, i) <==> InOnePlace(s, i)
    ensures Nowhere(after, i) <==> Nowhere(s, i)
  {
    assert forall w :: HandledIn(after, i, w) <==> HandledIn(s, i, w);
  }

  /** A connection leaves the accept loop for good. */
  lemma LoopLetsGo(s: State, after: State, c: Conn)
    requires Conserved(s) && HeldByLoop(s, c)
    requires after.workers == s.workers && after.accepted == s.accepted
    requires after.ended.Keys == s.ended.Keys + {c} && forall i: Conn :: !HeldByLoop(after, i)
    ensures Conserved(after)
  {
    forall i: Conn ensures if i < s.accepted then InOnePlace(after, i) else Nowhere(after, i) {
      assert if i < s.accepted then InOnePlace(s, i) else Nowhere(s, i);
      if i == c {
        assert forall w :: HandledIn(after, i, w) <==> HandledIn(s, i, w);
      } else {
        PlaceKept(s, after, i);
      }
    }
  }

  lemma WorkerTakes(s: State, after: State, w: nat)
    requires Conserved(s) && s.pc.Sending? && w < |s.workers| && s.workers[w] == Waiting
    requires after.workers == s.workers[w := Handling(s.pc.conn, s.pc.ip)]
    requires after.ended == s.ended && after.accepted == s.accepted && after.pc == Check
    ensures Conserved(after)
  {
    var c := s.pc.conn;
    forall i: Conn ensures if i < s.accepted then InOnePlace(after, i) else Nowhere(after, i) {
      assert if i < s.accepted then InOnePlace(s, i) else Nowhere(s, i);
      assert forall v :: v != w ==> (HandledIn(after, i, v) <==> HandledIn(s, i, v));
      assert HeldByLoop(s, c);
      if i == c {
        assert HandledIn(after, i, w);
      } else if v :| HandledIn(s, i, v) {
        assert HandledIn(after, i, v);
      }
    }
  }

  lemma WorkerLetsGo(s: State, w: nat, next: Worker, end: End)
    requires Conserved(s) && w < |s.workers| && s.workers[w].Handling? && !next.Handling?
    ensures Conserved(LetGo(s, w, next, end))
  {
    var c, after := s.workers[w].conn, LetGo(s, w, next, end);
    assert HandledIn(s, c, w);
    forall i: Conn ensures if i < s.accepted then InOnePlace(after, i) else Nowhere(after, i) {
      assert if i < s.accepted then InOnePlace(s, i) else Nowhere(s, i);
      assert forall v :: v != w ==> (HandledIn(after, i, v) <==> HandledIn(s, i, v));
      assert !HandledIn(after, i, w);
      if i != c {
        if v :| HandledIn(s, i, v) {
          assert HandledIn(after, i, v);
        }
      }
    }
  }

  lemma WorkerLeaves(s: State, after: State, w: nat)
    requires Conserved(s) && w < |s.workers| && s.workers[w] == Waiting
    requires after == s.(workers := s.workers[w := Exited])
    ensures Conserved(after)
  {
    forall i: Conn ensures if i < s.accepted then InOnePlace(after, i) else Nowhere(after, i) {
      assert if i < s.accepted then InOnePlace(s, i) else Nowhere(s, i);
      assert forall v :: HandledIn(after, i, v) <==> HandledIn(s, i, v);
    }
  }

  lemma Arrives(s: State, after: State)
    requires Conserved(s) && s.pc == Accept
    requires after.workers == s.workers && after.ended == s.ended
    requires after.accepted == s.accepted + 1 && after.pc.Acquiring? && after.pc.conn == s.accepted
    ensures Conserved(after)
  {
    forall i: Conn ensures if i < after.accepted then InOnePlace(after, i) else Nowhere(after, i) {
      assert if i < s.accepted then InOnePlace(s, i) else Nowhere(s, i);
      assert forall w :: HandledIn(after, i, w) <==> HandledIn(s, i, w);
    }
  }

  lemma Unmoved(s: State, after: State)
    requires Conserved(s)
    requires after.workers == s.workers && after.ended == s.ended && after.accepted == s.accepted
    requires forall i: Conn :: HeldByLoop(after, i) <==> HeldByLoop(s, i)
    ensures Conserved(after)
  {
    forall i: Conn ensures if i < s.accepted then InOnePlace(after, i) else Nowhere(after, i) {
      assert if i < s.accepted then InOnePlace(s, i) else Nowhere(s, i);
      PlaceKept(s, after, i);
    }
  }

  lemma StepConserved(c: Cfg, s: State, l: Label)
    requires Conserved(s) && Enabled(c, s, l)
    ensures Conserved(Do(c, s, l))
  {
    var after := Do(c, s, l);
    if l.Finish? {
      WorkerLetsGo(s, l.worker, Waiting, HandledBy(l.worker));
    } else if l.Unwind? {
      WorkerLetsGo(s, l.worker, Dead, UnwoundIn(l.worker));
    } else if l.Receive? {
      WorkerTakes(s, after, l.worker);
    } else if l.WorkerExit? {
      WorkerLeaves(s, after, l.worker);
    } else if l.AcceptConn? {
      Arrives(s, after);
    } else if l.SetBlockingFails? || (l.TryAcquire? && after.pc == Check) {
      LoopLetsGo(s, after, s.pc.conn);
    } else {
      Unmoved(s, after);
    }
  }

  lemma {:induction false} RunConserved(c: Cfg, s: State, ls: seq<Label>)
    requires Conserved(s) && Run(c, s, ls).Some?
    ensures Conserved(Run(c, s, ls).value)
    decreases |ls|
  {
    if ls == [] {
    } else {
      StepConserved(c, s, ls[0]);
      RunConserved(c, Do(c, s, ls[0]), ls[1..]);
    }
  }

  /** Every connection ever accepted is in exactly one place, in every state of
      every run, and no other connection is anywhere. */
  lemma ConnectionConservation(c: Cfg, s: State)
    requires Reachable(c, s)
    ensures Conserved(s)
  {
    var ls: seq<Label> :| Run(c, Init(c), ls) == Some(s);
    RunConserved(c, Init(c), ls);
  }

  // ------------------------------------------------------------------ order

  function Conns(started: seq<Start>): (conns: seq<Conn>)
    ensures |conns| == |started|
  {
    if started == [] then [] else Conns(started[..|started| - 1]) + [started[|started| - 1].conn]
  }

  /** The admitted connection that no worker has taken: held by the loop, or lost
      with it on the error exit. */
  function Untaken(s: State): seq<Conn>
  {
    if s.pc.SettingBlocking? || s.pc.Sending? then [s.pc.conn]
    else if s.pc == ReturnedErr && |s.admitted| > |s.started| then [s.admitted[|s.admitted| - 1]]
    else []
  }

  ghost predicate Ascending(conns: seq<Conn>, bound: nat)
  {
    && (forall i, j :: 0 <= i < j < |conns| ==> conns[i] < conns[j])
    && (forall i :: 0 <= i < |conns| ==> conns[i] < bound)
  }

  ghost predicate Taken(s: State, st: Start)
  {
    HandledIn(s, st.conn, st.worker) ||
    (st.conn in s.ended && s.ended[st.conn] in {HandledBy(st.worker), UnwoundIn(st.worker)})
  }

  ghost predicate InOrder(s: State)
  {
    && s.admitted == Conns(s.started) + Untaken(s)
    && Ascending(s.admitted, s.accepted)
    && (s.pc.Acquiring? ==> Ascending(s.admitted, s.pc.conn) && s.pc.conn < s.accepted)
  }

  ghost predicate AllTaken(s: State)
  {
    forall i :: 0 <= i < |s.started| ==> Taken(s, s.started[i])
  }

  ghost predicate LostOnlyOnError(s: State)
  {
    s.pc == ReturnedErr && Untaken(s) != [] ==>
      Untaken(s)[0] in s.ended && s.ended[Untaken(s)[0]] == DroppedOnError
  }

  lemma Somewhere(s: State, i: Conn)
    requires Conserved(s)
    requires i in s.ended || HeldByLoop(s, i) || exists w :: HandledIn(s, i, w)
    ensures i < s.accepted && InOnePlace(s, i)
  {
    assert i >= s.accepted ==> Nowhere(s, i);
  }

  /** What has ended is not ended again: no worker has it, nor the loop. */
  lemma EndedOnce(c: Cfg, s: State, l: Label, i: Conn)
    requires Conserved(s) && Enabled(c, s, l) && i in s.ended
    ensures i in Do(c, s, l).ended && Do(c, s, l).ended[i] == s.ended[i]
  {
    Somewhere(s, i);
    if l.Finish? || l.Unwind? {
      assert HandledIn(s, s.workers[l.worker].conn, l.worker);
    } else if l.TryAcquire? || l.SetBlockingFails? {
      assert HeldByLoop(s, s.pc.conn);
    }
  }

  lemma TakenKept(c: Cfg, s: State, l: Label, st: Start)
    requires Conserved(s) && Enabled(c, s, l) && Taken(s, st)
    ensures Taken(Do(c, s, l), st)
  {
    var after := Do(c, s, l);
    if HandledIn(s, st.conn, st.worker) {
      if (l.Finish? || l.Unwind?) && l.worker == st.worker {
        assert st.conn in after.ended;
      } else {
        assert HandledIn(after, st.conn, st.worker);
      }
    } else {
      EndedOnce(c, s, l, st.conn);
    }
  }

  lemma StepTaken(c: Cfg, s: State, l: Label)
    requires Conserved(s) && AllTaken(s) && Enabled(c, s, l)
    ensures AllTaken(Do(c, s, l))
  {
    var after := Do(c, s, l);
    forall i | 0 <= i < |after.started| ensures Taken(after, after.started[i]) {
      if i < |s.started| {
        TakenKept(c, s, l, s.started[i]);
      } else {
        assert HandledIn(after, s.pc.conn, l.worker);
      }
    }
  }

  lemma ReceiveInOrder(c: Cfg, s: State, w: nat)
    requires InOrder(s) && Enabled(c, s, Receive(w))
    ensures InOrder(Do(c, s, Receive(w)))
  {
  }

  lemma AscendingSnoc(conns: seq<Conn>, next: Conn, bound: nat)
    requires Ascending(conns, next) && next < bound
    ensures Ascending(conns + [next], bound)
  {
  }

  lemma AcquireInOrder(c: Cfg, s: State)
    requires InOrder(s) && Enabled(c, s, TryAcquire)
    ensures InOrder(Do(c, s, TryAcquire))
  {
    var after := Do(c, s, TryAcquire);
    AscendingSnoc(s.admitted, s.pc.conn, s.accepted);
    assert s.admitted == Conns(s.started);
    assert after.started == s.started && after.accepted == s.accepted;
    assert Untaken(after) == if after.pc.SettingBlocking? then [s.pc.conn] else [];
  }

  lemma StepInOrder(c: Cfg, s: State, l: Label)
    requires InOrder(s) && Enabled(c, s, l)
    ensures InOrder(Do(c, s, l))
  {
    if l.Receive? {
      ReceiveInOrder(c, s, l.worker);
    } else if l.TryAcquire? {
      AcquireInOrder(c, s);
    } else {
      var after := Do(c, s, l);
      assert after.started == s.started && after.admitted == s.admitted;
      assert Untaken(after) == Untaken(s);
    }
  }

  /** The error return with a connection in hand is that of `set_nonblocking`. */
  lemma LostArises(c: Cfg, s: State, l: Label)
    requires InOrder(s) && Enabled(c, s, l) && s.pc != ReturnedErr
    ensures LostOnlyOnError(Do(c, s, l))
  {
    if l.SetBlockingFails? {
      assert Do(c, s, l).ended[s.pc.conn] == DroppedOnError;
    } else if l.PollFails? || l.PollFatal? || l.AcceptFails? {
      assert s.admitted == Conns(s.started);
    } else {
      assert Do(c, s, l).pc != ReturnedErr;
    }
  }

  lemma StepLost(c: Cfg, s: State, l: Label)
    requires Conserved(s) && InOrder(s) && LostOnlyOnError(s) && Enabled(c, s, l)
    ensures LostOnlyOnError(Do(c, s, l))
  {
    if s.pc == ReturnedErr {
      assert Untaken(Do(c, s, l)) == Untaken(s);
      if Untaken(s) != [] {
        EndedOnce(c, s, l, Untaken(s)[0]);
      }
    } else {
      LostArises(c, s, l);
    }
  }

  lemma {:induction false} RunOrdered(c: Cfg, s: State, ls: seq<Label>)
    requires Conserved(s) && InOrder(s) && AllTaken(s) && LostOnlyOnError(s)
    requires Run(c, s, ls).Some?
    ensures var end := Run(c, s, ls).value;
            InOrder(end) && AllTaken(end) && LostOnlyOnError(end)
    decreases |ls|
  {
    if ls == [] {
    } else {
      StepConserved(c, s, ls[0]);
      StepInOrder(c, s, ls[0]);
      StepTaken(c, s, ls[0]);
      StepLost(c, s, ls[0]);
      RunOrdered(c, Do(c, s, ls[0]), ls[1..]);
    }
  }

  /** Workers take connections in the order these were admitted, which is the
      order they were accepted in, each by the one worker that then handles it;
      only the last admitted one may be untaken, for ever only if it was dropped
      on the error exit. */
  lemma HandlingInAdmissionOrder(c: Cfg, s: State)
    requires Reachable(c, s)
    ensures Conns(s.started) <= s.admitted && |s.admitted| <= |s.started| + 1
    ensures Ascending(s.admitted, s.accepted)
    ensures AllTaken(s)
    ensures LostOnlyOnError(s)
  {
    var ls: seq<Label> :| Run(c, Init(c), ls) == Some(s);
    RunOrdered(c, Init(c), ls);
  }
}
