/**
  The request queue of the HTTP server (src/serve/server.cpp:154-298): an accept thread, a pool of workers and `stop`,
  interleaved step by step. A step is what one thread does between two points where another thread can get in; the mutex
  is held across steps only by a worker that is about to block on the condition variable.
 */
module Server {
  type Socket = nat

  /** At the loop head; before taking the mutex; having found nothing to do, with the mutex; blocked; serving; gone. */
  datatype Worker = Head | WantLock | Sleepy | Waiting | Handling(socket: Socket) | Exited

  /** At the loop head; in `accept`; after a failed one; with a new socket; having queued it; refusing it; gone. */
  datatype Acceptor = Ready | Accepting | Failed | Got(socket: Socket) | Pushed | Rejecting(socket: Socket) | Left

  /** `stop`: flag cleared; listener closed; accept thread joined; workers notified and so many joined; drained. */
  datatype Stop = NotCalled | Cleared | ListenerClosed | AcceptJoined | Notified(joined: nat) | Draining | Returned

  datatype State = State(max: nat, running: bool, listening: bool, queue: seq<Socket>, accepted: nat,
                         closed: multiset<Socket>, acceptor: Acceptor, workers: seq<Worker>, stop: Stop)
  {
    /** Nobody holds the mutex. */
    predicate Free() { forall i :: 0 <= i < |workers| ==> workers[i] != Sleepy }

    function With(i: nat, w: Worker): State
      requires i < |workers|
    {
      this.(workers := workers[i := w])
    }
  }

  datatype Action =
    | Check | Connect | Fail | AfterFail | Enqueue | Notify(wake: nat) | Refuse
    | WorkerCheck(i: nat) | Lock(i: nat) | Sleep(i: nat) | Wake(i: nat) | Finish(i: nat)
    | Clear | CloseListener | JoinAcceptor | NotifyAll | JoinWorker | BeginDrain | Drain | Return

  // ---------------------------------------------------------------- the steps

  predicate Enabled(st: State, a: Action) {
    match a
    case Check => st.acceptor.Ready?
    case Connect => st.acceptor.Accepting? && st.listening
    case Fail => st.acceptor.Accepting?
    case AfterFail => st.acceptor.Failed?
    case Enqueue => st.acceptor.Got? && st.Free()
    case Notify(w) =>
      // `notify_one` wakes some waiting worker; it does nothing only if there is none
      st.acceptor.Pushed? && if w < |st.workers| then st.workers[w].Waiting? else NoneWaiting(st)
    case Refuse => st.acceptor.Rejecting?
    case WorkerCheck(i) => i < |st.workers| && st.workers[i].Head?
    case Lock(i) => i < |st.workers| && st.workers[i].WantLock? && st.Free()
    case Sleep(i) => i < |st.workers| && st.workers[i].Sleepy?
    case Wake(i) => i < |st.workers| && st.workers[i].Waiting?
    case Finish(i) => i < |st.workers| && st.workers[i].Handling?
    case Clear => st.stop.NotCalled? && st.running
    case CloseListener => st.stop.Cleared?
    case JoinAcceptor => st.stop.ListenerClosed? && st.acceptor.Left?
    case NotifyAll => st.stop.AcceptJoined? && st.Free()
    case JoinWorker => st.stop.Notified? && st.stop.joined < |st.workers| && st.workers[st.stop.joined].Exited?
    case BeginDrain => st.stop.Notified? && st.stop.joined == |st.workers|
    case Drain => st.stop.Draining? && st.queue != []
    case Return => st.stop.Draining? && st.queue == []
  }

  predicate NoneWaiting(st: State) { forall i :: 0 <= i < |st.workers| ==> !st.workers[i].Waiting? }

  /** Under the mutex: wait, leave, or take the first socket. */
  function TakeOrWait(st: State, i: nat): State
    requires i < |st.workers|
  {
    if st.running && st.queue == [] then st.With(i, Sleepy)
    else if st.queue == [] then st.With(i, Exited)
    else st.With(i, Handling(st.queue[0])).(queue := st.queue[1..])
  }

  function WakeAll(workers: seq<Worker>): (r: seq<Worker>)
    ensures |r| == |workers|
    ensures forall i :: 0 <= i < |r| ==> r[i] == if workers[i].Waiting? then WantLock else workers[i]
  {
    if workers == [] then []
    else
      var last := workers[|workers| - 1];
      WakeAll(workers[..|workers| - 1]) + [if last.Waiting? then WantLock else last]
  }

  function Next(st: State, a: Action): State
    requires Enabled(st, a)
  {
    match a
    case Check => st.(acceptor := if st.running then Accepting else Left)
    case Connect => st.(acceptor := Got(st.accepted), accepted := st.accepted + 1)
    case Fail => st.(acceptor := Failed)
    case AfterFail => st.(acceptor := if st.running then Ready else Left)
    case Enqueue =>
      if |st.queue| < st.max then st.(queue := st.queue + [st.acceptor.socket], acceptor := Pushed)
      else st.(acceptor := Rejecting(st.acceptor.socket))
    case Notify(w) => (if w < |st.workers| then st.With(w, WantLock) else st).(acceptor := Ready)
    case Refuse => st.(closed := st.closed + multiset{st.acceptor.socket}, acceptor := Ready)
    case WorkerCheck(i) => st.With(i, if st.running then WantLock else Exited)
    case Lock(i) => TakeOrWait(st, i)
    case Sleep(i) => st.With(i, Waiting)
    case Wake(i) => st.With(i, WantLock)
    case Finish(i) => st.With(i, Head).(closed := st.closed + multiset{st.workers[i].socket})
    case Clear => st.(running := false, stop := Cleared)
    case CloseListener => st.(listening := false, stop := ListenerClosed)
    case JoinAcceptor => st.(stop := AcceptJoined)
    case NotifyAll => st.(workers := WakeAll(st.workers), stop := Notified(0))
    case JoinWorker => st.(stop := Notified(st.stop.joined + 1))
    case BeginDrain => st.(stop := Draining)
    case Drain => st.(closed := st.closed + multiset{st.queue[0]}, queue := st.queue[1..])
    case Return => st.(stop := Returned)
  }

  function Heads(n: nat): (r: seq<Worker>)
    ensures |r| == n && forall i :: 0 <= i < n ==> r[i] == Head
  {
    if n == 0 then [] else Heads(n - 1) + [Head]
  }

  /** After `start`: between one and eight workers, nothing accepted. */
  function Started(max: nat, workers: nat): State {
    var n := if workers < 1 then 1 else if workers > 8 then 8 else workers;
    State(max, true, true, [], 0, multiset{}, Ready, Heads(n), NotCalled)
  }

  /** A run: the states that a sequence of enabled actions leads through. */
  ghost predicate Run(st: State, actions: seq<Action>, end: State)
    decreases |actions|
  {
    if actions == [] then st == end
    else
      var n := |actions| - 1;
      exists mid :: Run(st, actions[..n], mid) && Enabled(mid, actions[n]) && end == Next(mid, actions[n])
  }

  // ---------------------------------------------------------------- every socket is in one place

  function HeldBy(w: Worker, s: Socket): nat { if w.Handling? && w.socket == s then 1 else 0 }

  /** How many workers are serving the socket. */
  function Held(workers: seq<Worker>, s: Socket): nat {
    if workers == [] then 0 else Held(workers[..|workers| - 1], s) + HeldBy(workers[|workers| - 1], s)
  }

  function HeldByAcceptor(a: Acceptor, s: Socket): nat { if (a.Got? || a.Rejecting?) && a.socket == s then 1 else 0 }

  /** In how many places a socket is: queued, being accepted or refused, being served, closed. */
  function Places(st: State, s: Socket): nat {
    multiset(st.queue)[s] + HeldByAcceptor(st.acceptor, s) + Held(st.workers, s) + st.closed[s]
  }

  /** Every accepted socket is in exactly one place, once, and no other socket is anywhere. */
  ghost predicate Conserved(st: State) {
    forall s: Socket :: Places(st, s) == if s < st.accepted then 1 else 0
  }

  lemma {:induction false} HeldUpdate(workers: seq<Worker>, i: nat, w: Worker, s: Socket)
    requires i < |workers|
    ensures Held(workers[i := w], s) + HeldBy(workers[i], s) == Held(workers, s) + HeldBy(w, s)
  {
    var n := |workers| - 1;
    if i == n {
      assert workers[i := w][..n] == workers[..n];
    } else {
      HeldUpdate(workers[..n], i, w, s);
      assert workers[i := w][..n] == workers[..n][i := w];
    }
  }

  lemma {:induction false} HeldWakeAll(workers: seq<Worker>, s: Socket)
    ensures Held(WakeAll(workers), s) == Held(workers, s)
  {
    if workers != [] {
      var n := |workers| - 1;
      HeldWakeAll(workers[..n], s);
      assert WakeAll(workers)[..n] == WakeAll(workers[..n]);
    }
  }

  lemma {:induction false} NoneHeld(workers: seq<Worker>, s: Socket)
    requires forall i :: 0 <= i < |workers| ==> !workers[i].Handling?
    ensures Held(workers, s) == 0
  {
    if workers != [] { NoneHeld(workers[..|workers| - 1], s); }
  }

  lemma PopFront(queue: seq<Socket>, s: Socket)
    requires queue != []
    ensures multiset(queue)[s] == (if s == queue[0] then 1 else 0) + multiset(queue[1..])[s]
  {
    assert queue == [queue[0]] + queue[1..];
  }

  predicate ByAcceptor(a: Action) {
    a.Check? || a.Connect? || a.Fail? || a.AfterFail? || a.Enqueue? || a.Notify? || a.Refuse?
  }

  predicate ByWorker(a: Action) {
    a.WorkerCheck? || a.Lock? || a.Sleep? || a.Wake? || a.Finish?
  }

  lemma AcceptorMoves(st: State, a: Action, s: Socket)
    requires Enabled(st, a) && ByAcceptor(a)
    ensures Places(Next(st, a), s) == Places(st, s) + if a.Connect? && s == st.accepted then 1 else 0
  {
    if a.Notify? && a.wake < |st.workers| { HeldUpdate(st.workers, a.wake, WantLock, s); }
  }

  lemma WorkerMoves(st: State, a: Action, s: Socket)
    requires Enabled(st, a) && ByWorker(a)
    ensures Places(Next(st, a), s) == Places(st, s)
  {
    HeldUpdate(st.workers, a.i, Next(st, a).workers[a.i], s);
    if a.Lock? && st.queue != [] { PopFront(st.queue, s); }
  }

  lemma StopMoves(st: State, a: Action, s: Socket)
    requires Enabled(st, a) && !ByAcceptor(a) && !ByWorker(a)
    ensures Places(Next(st, a), s) == Places(st, s)
  {
    if a.NotifyAll? { HeldWakeAll(st.workers, s); }
    if a.Drain? { PopFront(st.queue, s); }
  }

  /** A step moves sockets between places; only `accept` brings a new one. */
  lemma StepConserves(st: State, a: Action)
    requires Enabled(st, a) && Conserved(st)
    ensures Conserved(Next(st, a))
  {
    forall s: Socket
      ensures Places(Next(st, a), s) == if s < Next(st, a).accepted then 1 else 0
    {
      if ByAcceptor(a) {
        AcceptorMoves(st, a, s);
      } else if ByWorker(a) {
        WorkerMoves(st, a, s);
      } else {
        StopMoves(st, a, s);
      }
    }
  }

  // ---------------------------------------------------------------- flags, mutex and joins

  predicate StopPastNotify(st: State) { st.stop.Notified? || st.stop.Draining? || st.stop.Returned? }

  /** How many workers `stop` has joined. */
  function Joined(st: State): nat {
    if st.stop.Notified? then st.stop.joined else if st.stop.Draining? || st.stop.Returned? then |st.workers| else 0
  }

  ghost predicate Flags(st: State) {
    && |st.queue| <= st.max && |st.workers| >= 1
    && (st.running <==> st.stop.NotCalled?)
    && (st.listening <==> st.stop.NotCalled? || st.stop.Cleared?)
    && (st.acceptor.Left? ==> !st.running)
    && (st.stop.AcceptJoined? || StopPastNotify(st) ==> st.acceptor.Left?)
    && Joined(st) <= |st.workers|
    && (st.stop.Returned? ==> st.queue == [])
  }

  /** What is known of one worker. */
  ghost predicate WorkerFits(st: State, i: nat)
    requires i < |st.workers|
  {
    && (st.workers[i].Sleepy? ==> st.queue == [])
    && (st.workers[i].Exited? ==> !st.running)
    && (StopPastNotify(st) ==> !st.workers[i].Waiting? && !st.workers[i].Sleepy?)
    && (i < Joined(st) ==> st.workers[i].Exited?)
  }

  /** At most one worker holds the mutex. */
  ghost predicate OneSleepy(st: State) {
    forall i, j :: 0 <= i < j < |st.workers| ==> !(st.workers[i].Sleepy? && st.workers[j].Sleepy?)
  }

  ghost predicate WorkersFit(st: State) {
    forall i :: 0 <= i < |st.workers| ==> WorkerFits(st, i)
  }

  lemma StepFlags(st: State, a: Action)
    requires Enabled(st, a) && Flags(st)
    ensures Flags(Next(st, a))
  {
  }

  lemma AcceptorFits(st: State, a: Action)
    requires Enabled(st, a) && ByAcceptor(a) && Flags(st) && WorkersFit(st) && OneSleepy(st)
    ensures WorkersFit(Next(st, a)) && OneSleepy(Next(st, a))
  {
    var st' := Next(st, a);
    forall i | 0 <= i < |st'.workers|
      ensures WorkerFits(st', i)
    {
      assert WorkerFits(st, i);
    }
  }

  lemma WorkerStepFits(st: State, a: Action)
    requires Enabled(st, a) && ByWorker(a) && Flags(st) && WorkersFit(st) && OneSleepy(st)
    ensures WorkersFit(Next(st, a)) && OneSleepy(Next(st, a))
  {
    var st' := Next(st, a);
    forall i | 0 <= i < |st'.workers|
      ensures WorkerFits(st', i)
    {
      assert WorkerFits(st, i);
    }
  }

  lemma StopStepFits(st: State, a: Action)
    requires Enabled(st, a) && !ByAcceptor(a) && !ByWorker(a) && Flags(st) && WorkersFit(st) && OneSleepy(st)
    ensures WorkersFit(Next(st, a)) && OneSleepy(Next(st, a))
  {
    var st' := Next(st, a);
    forall i | 0 <= i < |st'.workers|
      ensures WorkerFits(st', i)
    {
      assert WorkerFits(st, i);
    }
  }

  // ---------------------------------------------------------------- no lost wakeup

  ghost predicate Awake(st: State, i: nat) { i < |st.workers| && !st.workers[i].Waiting? && !st.workers[i].Exited? }

  /** While the server runs, a queued socket always has a worker that is not blocked, or a notification on its way. */
  ghost predicate NoLostWakeup(st: State) {
    st.running && st.queue != [] && !st.acceptor.Pushed? ==> exists i :: Awake(st, i)
  }

  lemma StepNoLostWakeup(st: State, a: Action)
    requires Enabled(st, a) && Flags(st) && WorkersFit(st) && NoLostWakeup(st)
    ensures NoLostWakeup(Next(st, a))
  {
    var st' := Next(st, a);
    if st'.running && st'.queue != [] && !st'.acceptor.Pushed? {
      if a.Notify? {
        var i := if a.wake < |st.workers| then a.wake else 0;
        assert WorkerFits(st, i);
        assert Awake(st', i);
      } else {
        var i :| Awake(st, i);
        assert WorkerFits(st, i);
        assert Awake(st', i);
      }
    }
  }

  // ---------------------------------------------------------------- all runs

  ghost predicate Inv(st: State) {
    Conserved(st) && Flags(st) && WorkersFit(st) && OneSleepy(st) && NoLostWakeup(st)
  }

  lemma StartedInv(max: nat, workers: nat)
    ensures Inv(Started(max, workers))
  {
    var st := Started(max, workers);
    StartedConserved(st);
    StartedFits(st);
  }

  ghost predicate Fresh(st: State) {
    && st.running && st.listening && st.queue == [] && st.accepted == 0 && st.closed == multiset{} && st.acceptor.Ready?
    && |st.workers| >= 1 && (forall i :: 0 <= i < |st.workers| ==> st.workers[i].Head?) && st.stop.NotCalled?
  }

  lemma StartedConserved(st: State)
    requires Fresh(st)
    ensures Conserved(st)
  {
    forall s: Socket
      ensures Places(st, s) == 0
    {
      NoneHeld(st.workers, s);
    }
  }

  lemma StartedFits(st: State)
    requires Fresh(st)
    ensures Flags(st) && WorkersFit(st) && OneSleepy(st) && NoLostWakeup(st)
  {
  }

  lemma StepInv(st: State, a: Action)
    requires Enabled(st, a) && Inv(st)
    ensures Inv(Next(st, a))
  {
    StepConserves(st, a);
    StepFlags(st, a);
    StepNoLostWakeup(st, a);
    if ByAcceptor(a) {
      AcceptorFits(st, a);
    } else if ByWorker(a) {
      WorkerStepFits(st, a);
    } else {
      StopStepFits(st, a);
    }
  }

  lemma {:induction false} RunInv(st: State, actions: seq<Action>, end: State)
    requires Run(st, actions, end) && Inv(st)
    ensures Inv(end)
    decreases |actions|
  {
    if actions != [] {
      var n := |actions| - 1;
      var mid :| Run(st, actions[..n], mid) && Enabled(mid, actions[n]) && end == Next(mid, actions[n]);
      RunInv(st, actions[..n], mid);
      StepInv(mid, actions[n]);
    }
  }

  /**
    In every state of every run: each accepted socket is in exactly one place, the queue is bounded, and once `stop` has
    notified the workers none of them is blocked. When `stop` has returned, every accepted socket is closed, once.
   */
  lemma ServerSafety(max: nat, workers: nat, actions: seq<Action>, end: State)
    requires Run(Started(max, workers), actions, end)
    ensures Conserved(end) && |end.queue| <= end.max && NoLostWakeup(end)
    ensures StopPastNotify(end) ==> NoneWaiting(end)
    ensures end.stop.Returned? ==> AllClosed(end)
  {
    StartedInv(max, workers);
    RunInv(Started(max, workers), actions, end);
    if StopPastNotify(end) {
      forall i | 0 <= i < |end.workers|
        ensures !end.workers[i].Waiting?
      {
        assert WorkerFits(end, i);
      }
    }
    if end.stop.Returned? { ReturnedMeansClosed(end); }
  }

  ghost predicate AllClosed(st: State) {
    && st.queue == [] && st.acceptor.Left? && (forall i :: 0 <= i < |st.workers| ==> st.workers[i].Exited?)
    && forall s: Socket :: st.closed[s] == if s < st.accepted then 1 else 0
  }

  lemma ReturnedMeansClosed(st: State)
    requires Inv(st) && st.stop.Returned?
    ensures AllClosed(st)
  {
    forall i | 0 <= i < |st.workers|
      ensures st.workers[i].Exited?
    {
      assert WorkerFits(st, i);
    }
    forall s: Socket
      ensures st.closed[s] == if s < st.accepted then 1 else 0
    {
      NoneHeld(st.workers, s);
      assert Places(st, s) == st.closed[s];
    }
  }

  // ---------------------------------------------------------------- who is refused, who is served, and in which order

  /**
    What happened, read off the states before the steps: the sockets that found room in the queue, in order, and those that
    did not; those that workers took from it; those that workers and `stop` closed.
   */
  datatype Log = Log(queued: seq<Socket>, refused: seq<Socket>, taken: seq<Socket>, served: seq<Socket>,
                     drained: seq<Socket>)

  function Record(log: Log, st: State, a: Action): Log
    requires Enabled(st, a)
  {
    match a
    case Enqueue =>
      if |st.queue| < st.max then log.(queued := log.queued + [st.acceptor.socket])
      else log.(refused := log.refused + [st.acceptor.socket])
    case Lock(_) => if st.queue == [] then log else log.(taken := log.taken + [st.queue[0]])
    case Finish(i) => log.(served := log.served + [st.workers[i].socket])
    case Drain => log.(drained := log.drained + [st.queue[0]])
    case _ => log
  }

  /** A run, with what happened in it. */
  ghost predicate LoggedRun(st: State, actions: seq<Action>, end: State, log: Log)
    decreases |actions|
  {
    if actions == [] then st == end && log == Log([], [], [], [], [])
    else
      var n := |actions| - 1;
      exists mid, before ::
        LoggedRun(st, actions[..n], mid, before) && Enabled(mid, actions[n]) && end == Next(mid, actions[n])
        && log == Record(before, mid, actions[n])
  }

  lemma {:induction false} EveryRunHasALog(st: State, actions: seq<Action>, end: State) returns (log: Log)
    requires Run(st, actions, end)
    ensures LoggedRun(st, actions, end, log)
    decreases |actions|
  {
    if actions == [] { return Log([], [], [], [], []); }
    var n := |actions| - 1;
    var mid :| Run(st, actions[..n], mid) && Enabled(mid, actions[n]) && end == Next(mid, actions[n]);
    var before := EveryRunHasALog(st, actions[..n], mid);
    log := Record(before, mid, actions[n]);
  }

  ghost predicate Ascending(sockets: seq<Socket>, below: nat) {
    && (forall i :: 0 <= i < |sockets| ==> sockets[i] < below)
    && forall i, j :: 0 <= i < j < |sockets| ==> sockets[i] < sockets[j]
  }

  /** The next socket to be decided on is the one in hand, or else the next to be accepted. */
  function Undecided(st: State): nat { if st.acceptor.Got? then st.acceptor.socket else st.accepted }

  /** The queue is first in, first out, over workers and drain, and its order is that of acceptance. */
  ghost predicate InOrder(st: State, log: Log) {
    && log.queued == log.taken + log.drained + st.queue
    && Ascending(log.queued, Undecided(st)) && Ascending(log.refused, Undecided(st))
    && (st.acceptor.Got? ==> st.accepted == st.acceptor.socket + 1)
    && (log.drained != [] ==> st.stop.Draining? || st.stop.Returned?)
  }

  /** Each decided socket either found room or did not. */
  ghost predicate Decided(st: State, log: Log) {
    forall s: Socket :: s < Undecided(st) <==> (s in log.queued || s in log.refused)
  }

  ghost predicate Apart(log: Log) {
    forall s: Socket :: s in log.queued ==> s !in log.refused
  }

  /** What is closed was served, drained or refused; what was taken is served or being handled. */
  ghost predicate Settled(st: State, log: Log, s: Socket) {
    && multiset(log.served)[s] + multiset(log.drained)[s] + multiset(log.refused)[s]
       == st.closed[s] + (if st.acceptor.Rejecting? && st.acceptor.socket == s then 1 else 0)
    && multiset(log.taken)[s] == multiset(log.served)[s] + Held(st.workers, s)
  }

  ghost predicate Accounted(st: State, log: Log) {
    InOrder(st, log) && Decided(st, log) && Apart(log) && forall s: Socket :: Settled(st, log, s)
  }

  lemma Snoc(sockets: seq<Socket>, s: Socket, t: Socket)
    ensures multiset(sockets + [s])[t] == multiset(sockets)[t] + if s == t then 1 else 0
  {
  }

  lemma AcceptorSettles(st: State, a: Action, log: Log, s: Socket)
    requires Enabled(st, a) && ByAcceptor(a) && Settled(st, log, s)
    ensures Settled(Next(st, a), Record(log, st, a), s)
  {
    if a.Notify? && a.wake < |st.workers| { HeldUpdate(st.workers, a.wake, WantLock, s); }
    if a.Enqueue? { Snoc(log.refused, st.acceptor.socket, s); }
  }

  lemma WorkerSettles(st: State, a: Action, log: Log, s: Socket)
    requires Enabled(st, a) && ByWorker(a) && Settled(st, log, s)
    ensures Settled(Next(st, a), Record(log, st, a), s)
  {
    HeldUpdate(st.workers, a.i, Next(st, a).workers[a.i], s);
    if a.Finish? {
      Snoc(log.served, st.workers[a.i].socket, s);
    } else if a.Lock? && st.queue != [] {
      Snoc(log.taken, st.queue[0], s);
    }
  }

  lemma StopSettles(st: State, a: Action, log: Log, s: Socket)
    requires Enabled(st, a) && !ByAcceptor(a) && !ByWorker(a) && Settled(st, log, s)
    ensures Settled(Next(st, a), Record(log, st, a), s)
  {
    if a.NotifyAll? { HeldWakeAll(st.workers, s); }
    if a.Drain? { Snoc(log.drained, st.queue[0], s); }
  }

  lemma StepSettles(st: State, a: Action, log: Log, s: Socket)
    requires Enabled(st, a) && Settled(st, log, s)
    ensures Settled(Next(st, a), Record(log, st, a), s)
  {
    if ByAcceptor(a) {
      AcceptorSettles(st, a, log, s);
    } else if ByWorker(a) {
      WorkerSettles(st, a, log, s);
    } else {
      StopSettles(st, a, log, s);
    }
  }

  /** Nothing is taken once draining has begun. */
  lemma LockMeansNoDrain(st: State, a: Action, log: Log)
    requires Enabled(st, a) && a.Lock? && Flags(st) && WorkersFit(st) && InOrder(st, log)
    ensures log.drained == []
  {
    assert WorkerFits(st, a.i);
  }

  lemma StepInOrder(st: State, a: Action, log: Log)
    requires Enabled(st, a) && Flags(st) && WorkersFit(st) && InOrder(st, log)
    ensures InOrder(Next(st, a), Record(log, st, a))
  {
    if a.Lock? { LockMeansNoDrain(st, a, log); }
    if (a.Lock? || a.Drain?) && st.queue != [] {
      assert st.queue == [st.queue[0]] + st.queue[1..];
    }
  }

  lemma StepDecides(st: State, a: Action, log: Log)
    requires Enabled(st, a) && InOrder(st, log) && Decided(st, log) && Apart(log)
    ensures Decided(Next(st, a), Record(log, st, a)) && Apart(Record(log, st, a))
  {
    if a.Enqueue? {
      var s := st.acceptor.socket;
      assert s !in log.queued && s !in log.refused;
    }
  }

  lemma {:induction false} RunAccounts(st: State, actions: seq<Action>, end: State, log: Log)
    requires Fresh(st) && Inv(st) && LoggedRun(st, actions, end, log)
    ensures Inv(end) && Accounted(end, log)
    decreases |actions|
  {
    if actions == [] {
      NothingYet(st);
    } else {
      var n := |actions| - 1;
      var mid, before :|
        LoggedRun(st, actions[..n], mid, before) && Enabled(mid, actions[n]) && end == Next(mid, actions[n])
        && log == Record(before, mid, actions[n]);
      RunAccounts(st, actions[..n], mid, before);
      StepInv(mid, actions[n]);
      StepInOrder(mid, actions[n], before);
      StepDecides(mid, actions[n], before);
      forall s: Socket
        ensures Settled(end, log, s)
      {
        StepSettles(mid, actions[n], before, s);
      }
    }
  }

  lemma NothingYet(st: State)
    requires Fresh(st)
    ensures Accounted(st, Log([], [], [], [], []))
  {
    forall s: Socket
      ensures Settled(st, Log([], [], [], [], []), s)
    {
      NoneHeld(st.workers, s);
    }
  }

  lemma {:induction false} OneOutcome(st: State, actions: seq<Action>, x: State, a: Log, y: State, b: Log)
    requires LoggedRun(st, actions, x, a) && LoggedRun(st, actions, y, b)
    ensures x == y && a == b
    decreases |actions|
  {
    if actions != [] {
      var n := |actions| - 1;
      var p, c :| LoggedRun(st, actions[..n], p, c) && Enabled(p, actions[n]) && x == Next(p, actions[n])
        && a == Record(c, p, actions[n]);
      var q, d :| LoggedRun(st, actions[..n], q, d) && Enabled(q, actions[n]) && y == Next(q, actions[n])
        && b == Record(d, q, actions[n]);
      OneOutcome(st, actions[..n], p, c, q, d);
    }
  }

  /** Step `n` of the run finds the acceptor with this socket, under the mutex, and these sockets in the queue. */
  ghost predicate Offers(st: State, actions: seq<Action>, n: nat, s: Socket, queue: seq<Socket>) {
    && n < |actions| && actions[n] == Enqueue
    && exists mid, log :: LoggedRun(st, actions[..n], mid, log) && mid.acceptor == Got(s) && mid.queue == queue
  }

  lemma OffersSplit(st: State, actions: seq<Action>, n: nat, mid: State, before: Log, i: nat, s: Socket, queue: seq<Socket>)
    requires n == |actions| - 1 && LoggedRun(st, actions[..n], mid, before)
    ensures Offers(st, actions, i, s, queue) <==>
      Offers(st, actions[..n], i, s, queue)
      || (i == n && actions[n] == Enqueue && mid.acceptor == Got(s) && mid.queue == queue)
  {
    if i < n { assert actions[..n][..i] == actions[..i]; }
    if i == n && Offers(st, actions, i, s, queue) {
      var x, log :| LoggedRun(st, actions[..n], x, log) && x.acceptor == Got(s) && x.queue == queue;
      OneOutcome(st, actions[..n], x, log, mid, before);
    }
  }

  /** The acceptor had the socket in hand when the queue had room, or when it had none. */
  ghost predicate Offered(st: State, actions: seq<Action>, s: Socket, room: bool) {
    exists n, queue :: Offers(st, actions, n, s, queue) && (|queue| < st.max) == room
  }

  lemma OfferedSplit(st: State, actions: seq<Action>, n: nat, mid: State, before: Log, s: Socket, room: bool)
    requires n == |actions| - 1 && LoggedRun(st, actions[..n], mid, before)
    ensures Offered(st, actions, s, room) <==>
      Offered(st, actions[..n], s, room)
      || (actions[n] == Enqueue && mid.acceptor == Got(s) && (|mid.queue| < st.max) == room)
  {
    if Offered(st, actions, s, room) {
      var i, queue :| Offers(st, actions, i, s, queue) && (|queue| < st.max) == room;
      OffersSplit(st, actions, n, mid, before, i, s, queue);
    }
    if Offered(st, actions[..n], s, room) {
      var i, queue :| Offers(st, actions[..n], i, s, queue) && (|queue| < st.max) == room;
      OffersSplit(st, actions, n, mid, before, i, s, queue);
    }
    OffersSplit(st, actions, n, mid, before, n, s, mid.queue);
  }

  lemma {:induction false} LogOfOffers(st: State, actions: seq<Action>, end: State, log: Log, s: Socket)
    requires LoggedRun(st, actions, end, log)
    ensures end.max == st.max
    ensures s in log.refused <==> Offered(st, actions, s, false)
    ensures s in log.queued <==> Offered(st, actions, s, true)
    decreases |actions|
  {
    if actions != [] {
      var n := |actions| - 1;
      var mid, before :|
        LoggedRun(st, actions[..n], mid, before) && Enabled(mid, actions[n]) && end == Next(mid, actions[n])
        && log == Record(before, mid, actions[n]);
      LogOfOffers(st, actions[..n], mid, before, s);
      OfferedSplit(st, actions, n, mid, before, s, true);
      OfferedSplit(st, actions, n, mid, before, s, false);
    }
  }

  lemma OfferFits(st: State, actions: seq<Action>, n: nat, s: Socket, queue: seq<Socket>)
    requires Fresh(st) && Inv(st) && Offers(st, actions, n, s, queue)
    ensures |queue| <= st.max
  {
    var mid, log :| LoggedRun(st, actions[..n], mid, log) && mid.acceptor == Got(s) && mid.queue == queue;
    RunAccounts(st, actions[..n], mid, log);
    LogOfOffers(st, actions[..n], mid, log, s);
  }

  /**
    Over every run: a socket is refused if and only if the queue was full when the acceptor, holding the mutex, had it in
    hand, and queued if and only if there was room. What was queued was so in order of acceptance, and left from the front, first
    to workers and then to the drain; the rest is still there.
   */
  lemma ServerOrder(max: nat, workers: nat, actions: seq<Action>, end: State, log: Log, s: Socket)
    requires LoggedRun(Started(max, workers), actions, end, log)
    ensures var st := Started(max, workers);
      && (s in log.refused <==> exists n, queue :: Offers(st, actions, n, s, queue) && |queue| == max)
      && (s in log.queued <==> exists n, queue :: Offers(st, actions, n, s, queue) && |queue| < max)
    ensures log.queued == log.taken + log.drained + end.queue
    ensures forall i, j :: 0 <= i < j < |log.queued| ==> log.queued[i] < log.queued[j]
    ensures s < end.accepted && end.acceptor != Got(s) ==> s in log.queued + log.refused
  {
    StartedInv(max, workers);
    RunAccounts(Started(max, workers), actions, end, log);
    LogOfOffers(Started(max, workers), actions, end, log, s);
    forall n, queue | Offers(Started(max, workers), actions, n, s, queue)
      ensures |queue| <= max
    {
      OfferFits(Started(max, workers), actions, n, s, queue);
    }
  }

  /** Every socket that is closed was served by a worker, or refused, or drained: one of the three, once. */
  lemma ClosedOnce(max: nat, workers: nat, actions: seq<Action>, end: State, log: Log, s: Socket)
    requires LoggedRun(Started(max, workers), actions, end, log) && !end.acceptor.Rejecting?
    ensures end.closed[s] == multiset(log.served)[s] + multiset(log.refused)[s] + multiset(log.drained)[s] <= 1
    ensures multiset(log.taken)[s] == multiset(log.served)[s] + Held(end.workers, s)
    ensures end.stop.Returned? ==>
      multiset(log.served)[s] + multiset(log.refused)[s] + multiset(log.drained)[s] == (if s < end.accepted then 1 else 0)
      && multiset(log.taken)[s] == multiset(log.served)[s]
  {
    StartedInv(max, workers);
    RunAccounts(Started(max, workers), actions, end, log);
    assert Settled(end, log, s) && Places(end, s) == if s < end.accepted then 1 else 0;
    if end.stop.Returned? {
      ReturnedMeansClosed(end);
      NoneHeld(end.workers, s);
    }
  }

  // ---------------------------------------------------------------- stop returns

  function WorkerRank(w: Worker): nat {
    match w
    case Sleepy => 5
    case Waiting => 4
    case WantLock => 3
    case Handling(_) => 2
    case Head => 1
    case Exited => 0
  }

  function WorkersRank(workers: seq<Worker>): nat {
    if workers == [] then 0 else WorkersRank(workers[..|workers| - 1]) + WorkerRank(workers[|workers| - 1])
  }

  function AcceptorRank(a: Acceptor): nat {
    match a
    case Accepting => 8
    case Got(_) => 6
    case Pushed => 4
    case Rejecting(_) => 4
    case Ready => 2
    case Failed => 2
    case Left => 0
  }

  function StopRank(st: State): nat {
    match st.stop
    case NotCalled => |st.workers| + 7
    case Cleared => |st.workers| + 6
    case ListenerClosed => |st.workers| + 5
    case AcceptJoined => |st.workers| + 4
    case Notified(j) => if j <= |st.workers| then |st.workers| - j + 3 else 3
    case Draining => 1
    case Returned => 0
  }

  /** What is left to do once the flag is cleared. */
  function Work(st: State): nat {
    |st.queue| + AcceptorRank(st.acceptor) + WorkersRank(st.workers) + StopRank(st)
  }

  lemma {:induction false} RankUpdate(workers: seq<Worker>, i: nat, w: Worker)
    requires i < |workers|
    ensures WorkersRank(workers[i := w]) + WorkerRank(workers[i]) == WorkersRank(workers) + WorkerRank(w)
  {
    var n := |workers| - 1;
    if i == n {
      assert workers[i := w][..n] == workers[..n];
    } else {
      RankUpdate(workers[..n], i, w);
      assert workers[i := w][..n] == workers[..n][i := w];
    }
  }

  lemma {:induction false} RankWakeAll(workers: seq<Worker>)
    ensures WorkersRank(WakeAll(workers)) <= WorkersRank(workers)
  {
    if workers != [] {
      var n := |workers| - 1;
      RankWakeAll(workers[..n]);
      assert WakeAll(workers)[..n] == WakeAll(workers[..n]);
    }
  }

  lemma WorkerWorks(st: State, a: Action)
    requires Enabled(st, a) && ByWorker(a) && !st.running
    ensures Work(Next(st, a)) < Work(st)
  {
    RankUpdate(st.workers, a.i, Next(st, a).workers[a.i]);
  }

  lemma AcceptorWorks(st: State, a: Action)
    requires Enabled(st, a) && ByAcceptor(a) && !st.running
    ensures Work(Next(st, a)) < Work(st)
  {
    if a.Notify? && a.wake < |st.workers| { RankUpdate(st.workers, a.wake, WantLock); }
  }

  lemma StopWorks(st: State, a: Action)
    requires Enabled(st, a) && !ByWorker(a) && !ByAcceptor(a) && !st.running
    ensures Work(Next(st, a)) < Work(st)
  {
    if a.NotifyAll? { RankWakeAll(st.workers); }
  }

  /** Once the flag is cleared, every step of every thread leaves less to do. */
  lemma StepWorks(st: State, a: Action)
    requires Enabled(st, a) && Flags(st) && !st.running
    ensures !Next(st, a).running && Work(Next(st, a)) < Work(st)
  {
    if ByWorker(a) {
      WorkerWorks(st, a);
    } else if ByAcceptor(a) {
      AcceptorWorks(st, a);
    } else {
      StopWorks(st, a);
    }
  }

  /** Whoever holds the mutex can go on; so some thread can, until `stop` has returned. */
  lemma CanStep(st: State) returns (a: Action)
    requires Inv(st) && !st.running && !st.stop.Returned?
    ensures Enabled(st, a) && !a.Connect?
  {
    if !st.Free() {
      var i :| 0 <= i < |st.workers| && st.workers[i] == Sleepy;
      return Sleep(i);
    }
    match st.stop
    case Cleared => a := CloseListener;
    case ListenerClosed => a := AcceptorCan(st);
    case AcceptJoined => a := NotifyAll;
    case Notified(j) =>
      if j == |st.workers| { return BeginDrain; }
      assert WorkerFits(st, j);
      a := match st.workers[j]
        case Head => WorkerCheck(j)
        case WantLock => Lock(j)
        case Handling(_) => Finish(j)
        case _ => JoinWorker;
    case Draining => a := if st.queue == [] then Return else Drain;
  }

  lemma AcceptorCan(st: State) returns (a: Action)
    requires Inv(st) && st.Free() && st.stop.ListenerClosed?
    ensures Enabled(st, a) && !a.Connect?
  {
    match st.acceptor
    case Ready => a := Check;
    case Accepting => a := Fail;
    case Failed => a := AfterFail;
    case Got(_) => a := Enqueue;
    case Pushed =>
      if NoneWaiting(st) { return Notify(|st.workers|); }
      var i :| 0 <= i < |st.workers| && st.workers[i].Waiting?;
      a := Notify(i);
    case Rejecting(_) => a := Refuse;
    case Left => a := JoinAcceptor;
  }

  /** After `stop` is called no run is longer than the work left. */
  lemma {:induction false} RunIsBounded(st: State, actions: seq<Action>, end: State)
    requires Run(st, actions, end) && Inv(st) && !st.running
    ensures Inv(end) && !end.running && |actions| + Work(end) <= Work(st)
    decreases |actions|
  {
    if actions != [] {
      var n := |actions| - 1;
      var mid :| Run(st, actions[..n], mid) && Enabled(mid, actions[n]) && end == Next(mid, actions[n]);
      RunIsBounded(st, actions[..n], mid);
      StepInv(mid, actions[n]);
      StepWorks(mid, actions[n]);
    }
  }

  /** So `stop` returns: a run that cannot go on, or that has used up its bound, has every socket closed. */
  lemma StopReturns(st: State, actions: seq<Action>, end: State)
    requires Run(st, actions, end) && Inv(st) && !st.running
    requires |actions| == Work(st) || forall a :: Enabled(end, a) ==> a.Connect?
    ensures end.stop.Returned? && AllClosed(end)
  {
    RunIsBounded(st, actions, end);
    if !end.stop.Returned? {
      var a := CanStep(end);
      if |actions| == Work(st) { StepWorks(end, a); }
    }
    ReturnedMeansClosed(end);
  }
}
