/** The accept loop, the worker pool and the signal handlers as one labelled
    transition system (src/server.rs, src/signal.rs). A label is one atomic step
    of one thread; a run is any sequence of labels, each enabled where it falls. */
module Server {
  import opened Wrappers
  import opened Limiter

  const DRAIN_CHUNK := 64

  /** `polled` says whether the self-pipe exists; `pipeRoom` is its capacity. */
  datatype Cfg = Cfg(workers: nat, cap: u32, pipeRoom: nat, polled: bool)

  type Conn = nat

  datatype Pc =
    | Check
    | Poll
    | Drain
    | Accept
    | Acquiring(conn: Conn, ip: Ip)
    | SettingBlocking(conn: Conn, ip: Ip)
    | Sending(conn: Conn, ip: Ip)
    | Closing
    | ReturnedOk
    | ReturnedErr

  datatype Worker = Waiting | Handling(conn: Conn, ip: Ip) | Dead | Exited

  datatype End = RefusedByCap | DroppedOnError | HandledBy(worker: nat) | UnwoundIn(worker: nat)

  datatype Start = Start(conn: Conn, worker: nat)

  /** `pending` handlers have set the flag and not yet written to the pipe;
      `finished` ones have done both. Connections are numbered in the order they
      are accepted. The last five fields record what has happened. */
  datatype State = State(
    flag: bool,
    pipe: nat,
    pending: nat,
    finished: nat,
    pc: Pc,
    workers: seq<Worker>,
    counts: Counts,
    accepted: nat,
    ended: map<Conn, End>,
    admitted: seq<Conn>,
    started: seq<Start>,
    late: nat)

  datatype Label =
    | HandlerStore
    | HandlerWrite
    | CheckFlag
    | PollInterrupted
    | PollFails
    | PollPipe
    | PollPipeBroken
    | PollFatal
    | PollIdle
    | PollReady
    | DrainRead
    | DrainEnd
    | AcceptConn(ip: Ip)
    | AcceptNothing
    | AcceptFails
    | TryAcquire
    | SetBlocking
    | SetBlockingFails
    | Receive(worker: nat)
    | Finish(worker: nat)
    | Unwind(worker: nat)
    | WorkerExit(worker: nat)
    | JoinAll

  function Init(c: Cfg): State
  {
    State(false, 0, 0, 0, Check, seq(c.workers, _ => Waiting), map[], 0, map[], [], [], 0)
  }

  predicate PipeReadable(c: Cfg, s: State)
  {
    c.polled && s.pipe > 0
  }

  /** The sender is dropped when the loop is left, by `break` or by an error. */
  predicate ChannelClosed(s: State)
  {
    s.pc in {Closing, ReturnedOk, ReturnedErr}
  }

  predicate Gone(w: Worker)
  {
    w.Dead? || w.Exited?
  }

  predicate Enabled(c: Cfg, s: State, l: Label)
  {
    match l
    case HandlerStore => true
    case HandlerWrite => s.pending > 0
    case CheckFlag => s.pc == Check
    case PollInterrupted => s.pc == Poll
    case PollFails => s.pc == Poll
    case PollPipe => s.pc == Poll && PipeReadable(c, s)
    case PollPipeBroken => s.pc == Poll && c.polled && s.pipe == 0
    case PollFatal => s.pc == Poll && !PipeReadable(c, s)
    case PollIdle => s.pc == Poll && !PipeReadable(c, s)
    case PollReady => s.pc == Poll && !PipeReadable(c, s)
    case DrainRead => s.pc == Drain && s.pipe > 0
    case DrainEnd => s.pc == Drain && s.pipe == 0
    case AcceptConn(_) => s.pc == Accept
    case AcceptNothing => s.pc == Accept
    case AcceptFails => s.pc == Accept
    case TryAcquire => s.pc.Acquiring?
    case SetBlocking => s.pc.SettingBlocking?
    case SetBlockingFails => s.pc.SettingBlocking?
    case Receive(w) => s.pc.Sending? && w < |s.workers| && s.workers[w] == Waiting
    case Finish(w) => w < |s.workers| && s.workers[w].Handling?
    case Unwind(w) => w < |s.workers| && s.workers[w].Handling?
    case WorkerExit(w) => ChannelClosed(s) && w < |s.workers| && s.workers[w] == Waiting
    case JoinAll => s.pc == Closing && forall w :: w in s.workers ==> Gone(w)
  }

  /** A worker lets go of its connection; the permit is dropped with it. */
  function LetGo(s: State, w: nat, next: Worker, end: End): State
    requires w < |s.workers| && s.workers[w].Handling?
  {
    s.(workers := s.workers[w := next],
       counts := Release(s.counts, s.workers[w].ip).counts,
       ended := s.ended[s.workers[w].conn := end])
  }

  function Do(c: Cfg, s: State, l: Label): State
    requires Enabled(c, s, l)
  {
    match l
    case HandlerStore => s.(flag := true, pending := s.pending + 1)
    case HandlerWrite =>
      s.(pending := s.pending - 1, finished := s.finished + 1,
         pipe := if c.polled && s.pipe < c.pipeRoom then s.pipe + 1 else s.pipe)
    case CheckFlag => s.(pc := if s.flag then Closing else Poll)
    case PollInterrupted => s.(pc := Check)
    case PollFails => s.(pc := ReturnedErr)
    case PollPipe => s.(pc := Drain)
    case PollPipeBroken => s.(pc := Closing)
    case PollFatal => s.(pc := ReturnedErr)
    case PollIdle => s.(pc := Check)
    case PollReady => s.(pc := Accept)
    case DrainRead => s.(pipe := if s.pipe > DRAIN_CHUNK then s.pipe - DRAIN_CHUNK else 0)
    case DrainEnd => s.(pc := Check)
    case AcceptConn(ip) =>
      s.(pc := Acquiring(s.accepted, ip), accepted := s.accepted + 1,
         late := if s.flag then s.late + 1 else s.late)
    case AcceptNothing => s.(pc := Check)
    case AcceptFails => s.(pc := ReturnedErr)
    case TryAcquire =>
      var (counts, granted) := Acquire(s.counts, c.cap, s.pc.ip);
      if granted then
        s.(pc := SettingBlocking(s.pc.conn, s.pc.ip), counts := counts, admitted := s.admitted + [s.pc.conn])
      else
        s.(pc := Check, counts := counts, ended := s.ended[s.pc.conn := RefusedByCap])
    case SetBlocking => s.(pc := Sending(s.pc.conn, s.pc.ip))
    case SetBlockingFails =>
      s.(pc := ReturnedErr, counts := Release(s.counts, s.pc.ip).counts,
         ended := s.ended[s.pc.conn := DroppedOnError])
    case Receive(w) =>
      s.(pc := Check, workers := s.workers[w := Handling(s.pc.conn, s.pc.ip)],
         started := s.started + [Start(s.pc.conn, w)])
    case Finish(w) => LetGo(s, w, Waiting, HandledBy(w))
    case Unwind(w) => LetGo(s, w, Dead, UnwoundIn(w))
    case WorkerExit(w) => s.(workers := s.workers[w := Exited])
    case JoinAll => s.(pc := ReturnedOk)
  }

  /** Where the labels lead from `s`, if each is enabled in its turn. */
  function Run(c: Cfg, s: State, ls: seq<Label>): Option<State>
    decreases |ls|
  {
    if ls == [] then Some(s)
    else if Enabled(c, s, ls[0]) then Run(c, Do(c, s, ls[0]), ls[1..])
    else None
  }

  ghost predicate Reachable(c: Cfg, s: State)
  {
    exists ls: seq<Label> :: Run(c, Init(c), ls) == Some(s)
  }

  lemma {:induction false} RunAppend(c: Cfg, s: State, a: seq<Label>, b: seq<Label>)
    ensures Run(c, s, a + b) == match Run(c, s, a)
                                case Some(mid) => Run(c, mid, b)
                                case None => None
    decreases |a|
  {
    if a == [] {
      assert a + b == b;
    } else {
      assert (a + b)[0] == a[0] && (a + b)[1..] == a[1..] + b;
      if Enabled(c, s, a[0]) {
        RunAppend(c, Do(c, s, a[0]), a[1..], b);
      }
    }
  }

  lemma RunOne(c: Cfg, s: State, l: Label)
    requires Enabled(c, s, l)
    ensures Run(c, s, [l]) == Some(Do(c, s, l))
  {
  }

  lemma ReachableStep(c: Cfg, s: State, l: Label)
    requires Reachable(c, s) && Enabled(c, s, l)
    ensures Reachable(c, Do(c, s, l))
  {
    var ls: seq<Label> :| Run(c, Init(c), ls) == Some(s);
    RunOne(c, s, l);
    RunAppend(c, Init(c), ls, [l]);
  }
}
