/**
 The listener that hands connections from a protocol multiplexer to an HTTP server: any number of
 threads put, accept and close, communicating through a mutex, a buffered channel, a channel that is
 closed, a wait group and a once. Each transition below is one atomic step of one thread.
 */
module MuxListener {
  /** Connections by identity. */
  type Conn = nat

  /** Where a thread is inside the call it makes. */
  datatype Thread =
    | Putting(conn: Conn, timed: bool)        // before the lock
    | InFlight(conn: Conn, timed: bool)       // counted, in the select
    | Leaving(conn: Conn, ok: bool)           // out of the select, still counted
    | PutDone(conn: Conn, ok: bool)
    | Accepting
    | Holding(conn: Conn)                     // received, before looking at the close channel
    | Accepted(conn: Conn)
    | AcceptFailed
    | Closing
    | OnceHeld                                // first closer, before the lock
    | Waiting                                 // closed, waiting for puts in flight
    | Draining
    | Blocked                                 // another closer, waiting for the first
    | CloseDone

  datatype Once = Free | Running(first: nat) | Finished

  /** `discarded` holds the connections the listener has closed, in order. */
  datatype State = State(capacity: nat, queue: seq<Conn>, closed: bool, inFlight: int, once: Once,
                         threads: seq<Thread>, discarded: seq<Conn>)

  datatype Action =
    | Spawn(thread: Thread)
    | Register(t: nat)
    | Enqueue(t: nat)
    | SeeClosed(t: nat)
    | Timeout(t: nat)
    | Done(t: nat)
    | AcceptClosed(t: nat)
    | Receive(t: nat)
    | Check(t: nat)
    | EnterOnce(t: nat)
    | SetClosed(t: nat)
    | WaitOver(t: nat)
    | DrainOne(t: nat)
    | DrainEnd(t: nat)
    | Unblock(t: nat)

  function Init(buffer: int): State {
    State(if buffer <= 0 then 1 else buffer, [], false, 0, Free, [], [])
  }

  predicate Enabled(s: State, a: Action) {
    if a.Spawn? then a.thread.Putting? || a.thread == Accepting || a.thread == Closing
    else
      a.t < |s.threads|
      && var th := s.threads[a.t];
         match a
         case Register(_) => th.Putting?
         case Enqueue(_) => th.InFlight? && |s.queue| < s.capacity
         case SeeClosed(_) => th.InFlight? && s.closed
         case Timeout(_) => th.InFlight? && th.timed
         case Done(_) => th.Leaving?
         case AcceptClosed(_) => th == Accepting && s.closed
         case Receive(_) => th == Accepting && s.queue != []
         case Check(_) => th.Holding?
         case EnterOnce(_) => th == Closing
         case SetClosed(_) => th == OnceHeld
         case WaitOver(_) => th == Waiting && s.inFlight == 0
         case DrainOne(_) => th == Draining && s.queue != []
         case DrainEnd(_) => th == Draining && s.queue == []
         case Unblock(_) => th == Blocked && s.once == Finished
         case Spawn(_) => true
  }

  function Become(s: State, t: nat, th: Thread): State
    requires t < |s.threads|
  {
    s.(threads := s.threads[t := th])
  }

  function Apply(s: State, a: Action): State
    requires Enabled(s, a)
  {
    match a
    case Spawn(th) => s.(threads := s.threads + [th])
    case Register(t) =>
      var th := s.threads[t];
      if s.closed then Become(s, t, PutDone(th.conn, false))
      else Become(s, t, InFlight(th.conn, th.timed)).(inFlight := s.inFlight + 1)
    case Enqueue(t) => Become(s, t, Leaving(s.threads[t].conn, true)).(queue := s.queue + [s.threads[t].conn])
    case SeeClosed(t) => Become(s, t, Leaving(s.threads[t].conn, false))
    case Timeout(t) => Become(s, t, Leaving(s.threads[t].conn, false))
    case Done(t) => Become(s, t, PutDone(s.threads[t].conn, s.threads[t].ok)).(inFlight := s.inFlight - 1)
    case AcceptClosed(t) => Become(s, t, AcceptFailed)
    case Receive(t) => Become(s, t, Holding(s.queue[0])).(queue := s.queue[1..])
    case Check(t) =>
      if s.closed then Become(s, t, AcceptFailed).(discarded := s.discarded + [s.threads[t].conn])
      else Become(s, t, Accepted(s.threads[t].conn))
    case EnterOnce(t) => if s.once == Free then Become(s, t, OnceHeld).(once := Running(t)) else Become(s, t, Blocked)
    case SetClosed(t) => Become(s, t, Waiting).(closed := true)
    case WaitOver(t) => Become(s, t, Draining)
    case DrainOne(t) => s.(queue := s.queue[1..], discarded := s.discarded + [s.queue[0]])
    case DrainEnd(t) => Become(s, t, CloseDone).(once := Finished)
    case Unblock(t) => Become(s, t, CloseDone)
  }

  // Where connection `c` is, counted over all threads.

  predicate Offers(th: Thread, c: Conn) {
    (th.Putting? || th.InFlight? || th.Leaving? || th.PutDone?) && th.conn == c
  }

  /** The caller of a put has the connection until the put succeeds. */
  predicate WithPutter(th: Thread, c: Conn) {
    Offers(th, c) && !((th.Leaving? || th.PutDone?) && th.ok)
  }

  predicate InsideAccept(th: Thread, c: Conn) {
    th.Holding? && th.conn == c
  }

  predicate Returned(th: Thread, c: Conn) {
    th.Accepted? && th.conn == c
  }

  type Role = (Thread, Conn) -> bool

  function Count(role: Role, threads: seq<Thread>, c: Conn): nat {
    if threads == [] then 0
    else Count(role, threads[..|threads| - 1], c) + if role(threads[|threads| - 1], c) then 1 else 0
  }

  function Occurrences(conns: seq<Conn>, c: Conn): nat {
    multiset(conns)[c]
  }

  /** A connection is in one place each time it was offered. */
  predicate Conserved(s: State, c: Conn) {
    Count(Offers, s.threads, c)
    == Count(WithPutter, s.threads, c) + Occurrences(s.queue, c) + Count(InsideAccept, s.threads, c)
       + Count(Returned, s.threads, c) + Occurrences(s.discarded, c)
  }

  /** What a thread has taken out of its caller's hands, less what it has got out of the queue. */
  function Balance(th: Thread, c: Conn): int {
    if Offers(th, c) && !WithPutter(th, c) then 1 else if InsideAccept(th, c) || Returned(th, c) then -1 else 0
  }

  function Total(threads: seq<Thread>, c: Conn): int {
    if threads == [] then 0 else Total(threads[..|threads| - 1], c) + Balance(threads[|threads| - 1], c)
  }

  lemma {:induction false} TotalIsDifference(threads: seq<Thread>, c: Conn)
    ensures Total(threads, c) == Count(Offers, threads, c) - Count(WithPutter, threads, c)
                                 - Count(InsideAccept, threads, c) - Count(Returned, threads, c)
  {
    if threads != [] {
      TotalIsDifference(threads[..|threads| - 1], c);
    }
  }

  lemma {:induction false} TotalUpdate(threads: seq<Thread>, t: nat, th: Thread, c: Conn)
    requires t < |threads|
    ensures Total(threads[t := th], c) == Total(threads, c) - Balance(threads[t], c) + Balance(th, c)
  {
    var n := |threads| - 1;
    if t == n {
      assert threads[t := th][..n] == threads[..n];
    } else {
      assert threads[t := th][..n] == threads[..n][t := th];
      TotalUpdate(threads[..n], t, th, c);
    }
  }

  predicate Balanced(s: State, c: Conn) {
    Total(s.threads, c) == Occurrences(s.queue, c) + Occurrences(s.discarded, c)
  }

  lemma BalancedIsConserved(s: State, c: Conn)
    ensures Balanced(s, c) <==> Conserved(s, c)
  {
    TotalIsDifference(s.threads, c);
  }

  /** A step of one thread that leaves queue and discarded connections alone. */
  lemma ThreadStepBalanced(s: State, s': State, t: nat, th: Thread, c: Conn)
    requires Balanced(s, c) && t < |s.threads| && s'.threads == s.threads[t := th]
    requires Occurrences(s'.queue, c) + Occurrences(s'.discarded, c) - Occurrences(s.queue, c) - Occurrences(s.discarded, c)
             == Balance(th, c) - Balance(s.threads[t], c)
    ensures Balanced(s', c)
  {
    TotalUpdate(s.threads, t, th, c);
  }

  lemma QueueHead(conns: seq<Conn>, c: Conn)
    requires conns != []
    ensures Occurrences(conns, c) == Occurrences(conns[1..], c) + if conns[0] == c then 1 else 0
  {
    assert conns == [conns[0]] + conns[1..];
  }

  lemma PutStepBalanced(s: State, a: Action, c: Conn)
    requires Balanced(s, c) && Enabled(s, a) && (a.Register? || a.Enqueue? || a.SeeClosed? || a.Timeout? || a.Done?)
    ensures Balanced(Apply(s, a), c)
  {
    ThreadStepBalanced(s, Apply(s, a), a.t, Apply(s, a).threads[a.t], c);
  }

  lemma AcceptStepBalanced(s: State, a: Action, c: Conn)
    requires Balanced(s, c) && Enabled(s, a) && (a.AcceptClosed? || a.Receive? || a.Check?)
    ensures Balanced(Apply(s, a), c)
  {
    if a.Receive? {
      QueueHead(s.queue, c);
    }
    ThreadStepBalanced(s, Apply(s, a), a.t, Apply(s, a).threads[a.t], c);
  }

  lemma CloserStep(s: State, a: Action, c: Conn)
    requires Enabled(s, a) && (a.EnterOnce? || a.SetClosed? || a.WaitOver? || a.DrainEnd? || a.Unblock?)
    ensures Apply(s, a).queue == s.queue && Apply(s, a).discarded == s.discarded
    ensures |Apply(s, a).threads| == |s.threads| && Apply(s, a).threads == s.threads[a.t := Apply(s, a).threads[a.t]]
    ensures Balance(s.threads[a.t], c) == 0 && Balance(Apply(s, a).threads[a.t], c) == 0
  {
  }

  /** Closers hold no connection. */
  lemma CloseStepBalanced(s: State, a: Action, c: Conn)
    requires Balanced(s, c) && Enabled(s, a)
    requires a.EnterOnce? || a.SetClosed? || a.WaitOver? || a.DrainEnd? || a.Unblock?
    ensures Balanced(Apply(s, a), c)
  {
    CloserStep(s, a, c);
    ThreadStepBalanced(s, Apply(s, a), a.t, Apply(s, a).threads[a.t], c);
  }

  lemma DrainStepBalanced(s: State, a: Action, c: Conn)
    requires Balanced(s, c) && Enabled(s, a) && a.DrainOne?
    ensures Balanced(Apply(s, a), c)
  {
    QueueHead(s.queue, c);
  }

  lemma StepBalanced(s: State, a: Action, c: Conn)
    requires Balanced(s, c) && Enabled(s, a)
    ensures Balanced(Apply(s, a), c)
  {
    if a.Spawn? {
      assert (s.threads + [a.thread])[..|s.threads|] == s.threads;
    } else if a.Register? || a.Enqueue? || a.SeeClosed? || a.Timeout? || a.Done? {
      PutStepBalanced(s, a, c);
    } else if a.AcceptClosed? || a.Receive? || a.Check? {
      AcceptStepBalanced(s, a, c);
    } else if a.DrainOne? {
      DrainStepBalanced(s, a, c);
    } else {
      CloseStepBalanced(s, a, c);
    }
  }

  // What holds in every reachable state.

  /** Between registering and done. */
  predicate Counted(th: Thread, c: Conn) {
    th.InFlight? || th.Leaving?
  }

  lemma {:induction false} CountUpdate(role: Role, threads: seq<Thread>, t: nat, th: Thread, c: Conn)
    requires t < |threads|
    ensures Count(role, threads[t := th], c)
            == Count(role, threads, c) - (if role(threads[t], c) then 1 else 0) + if role(th, c) then 1 else 0
    ensures role(threads[t], c) ==> Count(role, threads, c) > 0
  {
    var n := |threads| - 1;
    if t == n {
      assert threads[t := th][..n] == threads[..n];
    } else {
      assert threads[t := th][..n] == threads[..n][t := th];
      CountUpdate(role, threads[..n], t, th, c);
    }
  }

  lemma CountSpawn(role: Role, threads: seq<Thread>, th: Thread, c: Conn)
    ensures Count(role, threads + [th], c) == Count(role, threads, c) + if role(th, c) then 1 else 0
  {
    assert (threads + [th])[..|threads|] == threads;
  }

  predicate InClose(th: Thread) {
    th == OnceHeld || th == Waiting || th == Draining
  }

  /** The phases of the one thread that runs the once body. */
  predicate CloserOk(s: State) {
    match s.once
    case Free => !s.closed
    case Running(t) =>
      && t < |s.threads| && InClose(s.threads[t])
      && (s.closed <==> s.threads[t] != OnceHeld)
      && (s.threads[t] == Draining ==> s.inFlight == 0)
    case Finished => s.closed && s.inFlight == 0 && s.queue == []
  }

  predicate ThreadOk(s: State, t: nat)
    requires t < |s.threads|
  {
    && (InClose(s.threads[t]) ==> s.once == Running(t))
    && (s.threads[t] == CloseDone ==> s.once == Finished)
    && (s.threads[t] == Blocked ==> s.once != Free)
  }

  ghost predicate ThreadsOk(s: State) {
    forall t: nat :: t < |s.threads| ==> ThreadOk(s, t)
  }

  ghost predicate Inv(s: State) {
    && 1 <= s.capacity && |s.queue| <= s.capacity
    && s.inFlight == Count(Counted, s.threads, 0)
    && CloserOk(s) && ThreadsOk(s)
  }

  lemma InitInv(buffer: int, c: Conn)
    ensures Inv(Init(buffer)) && Balanced(Init(buffer), c)
  {
  }

  /** A put that is counted makes the count positive. */
  lemma CountedPositive(s: State, t: nat)
    requires Inv(s) && t < |s.threads| && Counted(s.threads[t], 0)
    ensures s.inFlight > 0
  {
    CountUpdate(Counted, s.threads, t, s.threads[t], 0);
  }

  lemma PutStepCount(s: State, a: Action)
    requires Inv(s) && Enabled(s, a) && (a.Register? || a.Enqueue? || a.SeeClosed? || a.Timeout? || a.Done?)
    ensures Apply(s, a).inFlight == Count(Counted, Apply(s, a).threads, 0)
  {
    CountUpdate(Counted, s.threads, a.t, Apply(s, a).threads[a.t], 0);
  }

  /** Threads that accept or close are never counted. */
  lemma OtherStepCount(s: State, a: Action)
    requires Inv(s) && Enabled(s, a) && !a.Spawn? && !a.DrainOne?
    requires !(a.Register? || a.Enqueue? || a.SeeClosed? || a.Timeout? || a.Done?)
    ensures Apply(s, a).inFlight == Count(Counted, Apply(s, a).threads, 0)
  {
    CountUpdate(Counted, s.threads, a.t, Apply(s, a).threads[a.t], 0);
  }

  lemma CountKept(s: State, a: Action)
    requires Inv(s) && Enabled(s, a)
    ensures Apply(s, a).inFlight == Count(Counted, Apply(s, a).threads, 0)
  {
    if a.Spawn? {
      CountSpawn(Counted, s.threads, a.thread, 0);
    } else if a.Register? || a.Enqueue? || a.SeeClosed? || a.Timeout? || a.Done? {
      PutStepCount(s, a);
    } else if !a.DrainOne? {
      OtherStepCount(s, a);
    }
  }

  lemma QueueBounded(s: State, a: Action)
    requires Inv(s) && Enabled(s, a)
    ensures |Apply(s, a).queue| <= Apply(s, a).capacity == s.capacity
  {
  }

  lemma PutStepInv(s: State, a: Action)
    requires Inv(s) && Enabled(s, a) && (a.Register? || a.Enqueue? || a.SeeClosed? || a.Timeout? || a.Done?)
    ensures CloserOk(Apply(s, a)) && ThreadsOk(Apply(s, a))
  {
    var s' := Apply(s, a);
    if Counted(s.threads[a.t], 0) {
      CountedPositive(s, a.t);
    }
    forall t: nat | t < |s'.threads| ensures ThreadOk(s', t) {
      assert ThreadOk(s, t);
    }
  }

  lemma AcceptStepInv(s: State, a: Action)
    requires Inv(s) && Enabled(s, a) && (a.Spawn? || a.AcceptClosed? || a.Receive? || a.Check?)
    ensures CloserOk(Apply(s, a)) && ThreadsOk(Apply(s, a))
  {
    var s' := Apply(s, a);
    forall t: nat | t < |s'.threads| ensures ThreadOk(s', t) {
      assert t < |s.threads| ==> ThreadOk(s, t);
    }
  }

  lemma CloseStepInv(s: State, a: Action)
    requires Inv(s) && Enabled(s, a)
    requires a.EnterOnce? || a.SetClosed? || a.WaitOver? || a.DrainOne? || a.DrainEnd? || a.Unblock?
    ensures CloserOk(Apply(s, a)) && ThreadsOk(Apply(s, a))
  {
    var s' := Apply(s, a);
    assert ThreadOk(s, a.t);
    forall t: nat | t < |s'.threads| ensures ThreadOk(s', t) {
      assert ThreadOk(s, t);
    }
  }

  lemma StepInv(s: State, a: Action)
    requires Inv(s) && Enabled(s, a)
    ensures Inv(Apply(s, a))
  {
    CountKept(s, a);
    QueueBounded(s, a);
    if a.Register? || a.Enqueue? || a.SeeClosed? || a.Timeout? || a.Done? {
      PutStepInv(s, a);
    } else if a.Spawn? || a.AcceptClosed? || a.Receive? || a.Check? {
      AcceptStepInv(s, a);
    } else {
      CloseStepInv(s, a);
    }
  }

  // Whole runs, under any schedule.

  ghost predicate StepAt(run: seq<State>, acts: seq<Action>, i: nat)
    requires i < |acts| < |run|
  {
    Enabled(run[i], acts[i]) && run[i + 1] == Apply(run[i], acts[i])
  }

  ghost predicate Run(run: seq<State>, acts: seq<Action>, buffer: int) {
    && |run| == |acts| + 1 && run[0] == Init(buffer)
    && forall i: nat :: i < |acts| ==> StepAt(run, acts, i)
  }

  lemma {:induction false} Reachable(run: seq<State>, acts: seq<Action>, buffer: int, n: nat)
    requires Run(run, acts, buffer) && n < |run|
    ensures Inv(run[n])
  {
    if n == 0 {
      InitInv(buffer, 0);
    } else {
      Reachable(run, acts, buffer, n - 1);
      assert StepAt(run, acts, n - 1);
      StepInv(run[n - 1], acts[n - 1]);
    }
  }

  lemma {:induction false} ReachableBalanced(run: seq<State>, acts: seq<Action>, buffer: int, n: nat, c: Conn)
    requires Run(run, acts, buffer) && n < |run|
    ensures Balanced(run[n], c)
  {
    if n == 0 {
      InitInv(buffer, c);
    } else {
      ReachableBalanced(run, acts, buffer, n - 1, c);
      assert StepAt(run, acts, n - 1);
      StepBalanced(run[n - 1], acts[n - 1], c);
    }
  }

  /**
   At any moment a connection is, once for each time it was offered, with the caller of a put, in the
   queue, held inside an accept, returned by an accept, or closed by the listener.
   */
  lemma ConnectionsConserved(run: seq<State>, acts: seq<Action>, buffer: int, n: nat, c: Conn)
    requires Run(run, acts, buffer) && n < |run|
    ensures Conserved(run[n], c)
  {
    ReachableBalanced(run, acts, buffer, n, c);
    BalancedIsConserved(run[n], c);
  }

  // Order.

  /** What one step puts into the queue. */
  function Entering(s: State, a: Action): seq<Conn> {
    if a.Enqueue? && a.t < |s.threads| && s.threads[a.t].InFlight? then [s.threads[a.t].conn] else []
  }

  /** What one step hands to an accept or closes while draining, told from the state after it. */
  function Leaves(s': State, a: Action): seq<Conn> {
    if a.Receive? && a.t < |s'.threads| && s'.threads[a.t].Holding? then [s'.threads[a.t].conn]
    else if a.DrainOne? && s'.discarded != [] then [s'.discarded[|s'.discarded| - 1]]
    else []
  }

  function Entered(run: seq<State>, acts: seq<Action>, n: nat): seq<Conn>
    requires n <= |acts| < |run|
  {
    if n == 0 then [] else Entered(run, acts, n - 1) + Entering(run[n - 1], acts[n - 1])
  }

  function Left(run: seq<State>, acts: seq<Action>, n: nat): seq<Conn>
    requires n <= |acts| < |run|
  {
    if n == 0 then [] else Left(run, acts, n - 1) + Leaves(run[n], acts[n - 1])
  }

  lemma StepOrder(s: State, a: Action)
    requires Enabled(s, a)
    ensures s.queue + Entering(s, a) == Leaves(Apply(s, a), a) + Apply(s, a).queue
  {
  }

  lemma Shifted(before: seq<Conn>, queue: seq<Conn>, entering: seq<Conn>, leaves: seq<Conn>, queue': seq<Conn>)
    requires queue + entering == leaves + queue'
    ensures before + queue + entering == before + leaves + queue'
  {
    assert before + queue + entering == before + (queue + entering);
    assert before + leaves + queue' == before + (leaves + queue');
  }

  /** Connections leave the queue in the order in which they entered it. */
  lemma {:induction false} FirstInFirstOut(run: seq<State>, acts: seq<Action>, buffer: int, n: nat)
    requires Run(run, acts, buffer) && n < |run|
    ensures Entered(run, acts, n) == Left(run, acts, n) + run[n].queue
  {
    if n > 0 {
      FirstInFirstOut(run, acts, buffer, n - 1);
      assert StepAt(run, acts, n - 1);
      StepOrder(run[n - 1], acts[n - 1]);
      Shifted(Left(run, acts, n - 1), run[n - 1].queue, Entering(run[n - 1], acts[n - 1]), Leaves(run[n], acts[n - 1]), run[n].queue);
    }
  }

  /** There is room for as many connections as asked for, and for one at least. */
  lemma {:induction false} RoomForBuffer(run: seq<State>, acts: seq<Action>, buffer: int, n: nat)
    requires Run(run, acts, buffer) && n < |run|
    ensures |run[n].queue| <= run[n].capacity == if buffer < 1 then 1 else buffer
  {
    Reachable(run, acts, buffer, n);
    if n > 0 {
      RoomForBuffer(run, acts, buffer, n - 1);
      Reachable(run, acts, buffer, n - 1);
      assert StepAt(run, acts, n - 1);
      QueueBounded(run[n - 1], acts[n - 1]);
    }
  }

  // Who has to wait.

  ghost predicate CanStep(s: State, t: nat) {
    exists a: Action :: !a.Spawn? && a.t == t && Enabled(s, a)
  }

  /** A call has to wait, or is over. */
  predicate Waits(s: State, th: Thread) {
    match th
    case InFlight(_, timed) => |s.queue| == s.capacity && !s.closed && !timed
    case Accepting => s.queue == [] && !s.closed
    case Waiting => s.inFlight != 0
    case Blocked => s.once != Finished
    case _ => th.PutDone? || th.Accepted? || th == AcceptFailed || th == CloseDone
  }

  function NextAction(s: State, t: nat): Action
    requires t < |s.threads| && !Waits(s, s.threads[t])
  {
    match s.threads[t]
    case Putting(_, _) => Register(t)
    case InFlight(_, timed) => if s.closed then SeeClosed(t) else if timed then Timeout(t) else Enqueue(t)
    case Leaving(_, _) => Done(t)
    case Accepting => if s.closed then AcceptClosed(t) else Receive(t)
    case Holding(_) => Check(t)
    case Closing => EnterOnce(t)
    case OnceHeld => SetClosed(t)
    case Waiting => WaitOver(t)
    case Draining => if s.queue == [] then DrainEnd(t) else DrainOne(t)
    case _ => Unblock(t)
  }

  /**
   A put waits only while the queue is full, the listener open and no timeout set, an accept only while the
   queue is empty and the listener open, the closer only for puts in flight, and other closers for it.
   */
  lemma WaitsExactly(s: State, t: nat)
    requires Inv(s) && t < |s.threads|
    ensures CanStep(s, t) <==> !Waits(s, s.threads[t])
  {
    if !Waits(s, s.threads[t]) {
      assert Enabled(s, NextAction(s, t));
    }
  }

  // After closing.

  lemma ClosedStays(s: State, a: Action)
    requires Inv(s) && Enabled(s, a) && s.closed
    ensures Apply(s, a).closed && |s.threads| <= |Apply(s, a).threads| && s.discarded <= Apply(s, a).discarded
  {
  }

  /** What one step can do to a thread once the listener is closed. */
  lemma ClosedThread(s: State, a: Action, t: nat)
    requires Inv(s) && Enabled(s, a) && s.closed && t < |Apply(s, a).threads|
    ensures var th := Apply(s, a).threads[t];
            && (th.Accepted? ==> t < |s.threads| && s.threads[t] == th)
            && (t < |s.threads| && s.threads[t].Holding? ==>
                  th == s.threads[t] || (th == AcceptFailed && s.threads[t].conn in Apply(s, a).discarded))
            && (t < |s.threads| && s.threads[t] == AcceptFailed ==> th == AcceptFailed)
  {
  }

  lemma {:induction false} ClosedOnwards(run: seq<State>, acts: seq<Action>, buffer: int, p: nat, n: nat)
    requires Run(run, acts, buffer) && p <= n < |run| && run[p].closed
    ensures run[n].closed && |run[p].threads| <= |run[n].threads| && run[p].discarded <= run[n].discarded
  {
    if p < n {
      ClosedOnwards(run, acts, buffer, p, n - 1);
      Reachable(run, acts, buffer, n - 1);
      assert StepAt(run, acts, n - 1);
      ClosedStays(run[n - 1], acts[n - 1]);
    }
  }

  /** Once the listener is closed no accept returns a connection any more. */
  lemma {:induction false} NoAcceptAfterClose(run: seq<State>, acts: seq<Action>, buffer: int, p: nat, n: nat, t: nat)
    requires Run(run, acts, buffer) && p <= n < |run| && run[p].closed
    requires t < |run[n].threads| && run[n].threads[t].Accepted?
    ensures t < |run[p].threads| && run[p].threads[t] == run[n].threads[t]
  {
    if p < n {
      ClosedOnwards(run, acts, buffer, p, n - 1);
      Reachable(run, acts, buffer, n - 1);
      assert StepAt(run, acts, n - 1);
      ClosedThread(run[n - 1], acts[n - 1], t);
      NoAcceptAfterClose(run, acts, buffer, p, n - 1, t);
    }
  }

  /** A connection held inside an accept at that time is kept there or closed. */
  lemma {:induction false} HeldIsClosed(run: seq<State>, acts: seq<Action>, buffer: int, p: nat, n: nat, t: nat)
    requires Run(run, acts, buffer) && p <= n < |run| && run[p].closed
    requires t < |run[p].threads| && run[p].threads[t].Holding?
    ensures t < |run[n].threads|
    ensures run[n].threads[t] == run[p].threads[t]
            || (run[n].threads[t] == AcceptFailed && run[p].threads[t].conn in run[n].discarded)
  {
    if p < n {
      HeldIsClosed(run, acts, buffer, p, n - 1, t);
      ClosedOnwards(run, acts, buffer, p, n - 1);
      Reachable(run, acts, buffer, n - 1);
      assert StepAt(run, acts, n - 1);
      ClosedStays(run[n - 1], acts[n - 1]);
      ClosedThread(run[n - 1], acts[n - 1], t);
    }
  }

  predicate Succeeded(th: Thread) {
    (th.Leaving? || th.PutDone?) && th.ok
  }

  /** After the drain there is nothing in flight that could fill the queue again. */
  lemma FinishedStep(s: State, a: Action, t: nat)
    requires Inv(s) && Enabled(s, a) && s.once == Finished
    ensures Apply(s, a).once == Finished && Apply(s, a).queue == []
    ensures t < |Apply(s, a).threads| && Succeeded(Apply(s, a).threads[t]) ==>
              t < |s.threads| && s.threads[t] == Apply(s, a).threads[t]
  {
    if !a.Spawn? && Counted(s.threads[a.t], 0) {
      CountedPositive(s, a.t);
      assert false;
    }
    if !a.Spawn? {
      assert ThreadOk(s, a.t);
    }
  }

  lemma {:induction false} FinishedOnwards(run: seq<State>, acts: seq<Action>, buffer: int, p: nat, n: nat)
    requires Run(run, acts, buffer) && p <= n < |run| && run[p].once == Finished
    ensures run[n].once == Finished && run[n].queue == []
  {
    Reachable(run, acts, buffer, n);
    if p < n {
      FinishedOnwards(run, acts, buffer, p, n - 1);
      Reachable(run, acts, buffer, n - 1);
      assert StepAt(run, acts, n - 1);
      FinishedStep(run[n - 1], acts[n - 1], 0);
    }
  }

  lemma {:induction false} NoPutSucceeds(run: seq<State>, acts: seq<Action>, buffer: int, p: nat, n: nat, t: nat)
    requires Run(run, acts, buffer) && p <= n < |run| && run[p].once == Finished
    requires t < |run[n].threads| && Succeeded(run[n].threads[t])
    ensures t < |run[p].threads| && run[p].threads[t] == run[n].threads[t]
  {
    if p < n {
      FinishedOnwards(run, acts, buffer, p, n - 1);
      Reachable(run, acts, buffer, n - 1);
      assert StepAt(run, acts, n - 1);
      FinishedStep(run[n - 1], acts[n - 1], t);
      NoPutSucceeds(run, acts, buffer, p, n - 1, t);
    }
  }

  /**
   From the moment any close call has returned, the queue is empty for good, and every put that
   succeeds and every accept that returns a connection had done so before.
   */
  lemma AfterCloseReturns(run: seq<State>, acts: seq<Action>, buffer: int, p: nat, n: nat, closer: nat, t: nat)
    requires Run(run, acts, buffer) && p <= n < |run|
    requires closer < |run[p].threads| && run[p].threads[closer] == CloseDone
    ensures run[n].queue == []
    ensures t < |run[n].threads| && (Succeeded(run[n].threads[t]) || run[n].threads[t].Accepted?) ==>
              t < |run[p].threads| && run[p].threads[t] == run[n].threads[t]
  {
    Reachable(run, acts, buffer, p);
    assert ThreadOk(run[p], closer);
    FinishedOnwards(run, acts, buffer, p, n);
    if t < |run[n].threads| {
      if Succeeded(run[n].threads[t]) {
        NoPutSucceeds(run, acts, buffer, p, n, t);
      } else if run[n].threads[t].Accepted? {
        NoAcceptAfterClose(run, acts, buffer, p, n, t);
      }
    }
  }

  // Closing comes to an end.

  predicate InSelect(th: Thread, c: Conn) {
    th.InFlight?
  }

  predicate OnItsWayOut(th: Thread, c: Conn) {
    th.Leaving?
  }

  function CloserWork(s: State): nat {
    match s.once
    case Free => 3
    case Running(t) =>
      if t >= |s.threads| then 3
      else if s.threads[t] == Draining then 1 else if s.threads[t] == Waiting then 2 else 3
    case Finished => 0
  }

  /** Steps that remain for the puts in flight, the queue and the closer. */
  function Work(s: State): nat {
    3 * Count(InSelect, s.threads, 0) + Count(OnItsWayOut, s.threads, 0) + |s.queue| + CloserWork(s)
  }

  predicate Progress(a: Action) {
    a.Enqueue? || a.SeeClosed? || a.Timeout? || a.Done? || a.Receive? || a.WaitOver? || a.DrainOne? || a.DrainEnd?
  }

  lemma CountsAfter(s: State, a: Action)
    requires Enabled(s, a)
    ensures var n, n' := Count(InSelect, s.threads, 0), Count(InSelect, Apply(s, a).threads, 0);
            n' == n + (if a.Register? && !s.closed then 1 else if a.Enqueue? || a.SeeClosed? || a.Timeout? then -1 else 0)
    ensures var n, n' := Count(OnItsWayOut, s.threads, 0), Count(OnItsWayOut, Apply(s, a).threads, 0);
            n' == n + (if a.Enqueue? || a.SeeClosed? || a.Timeout? then 1 else if a.Done? then -1 else 0)
  {
    if a.Spawn? {
      CountSpawn(InSelect, s.threads, a.thread, 0);
      CountSpawn(OnItsWayOut, s.threads, a.thread, 0);
    } else if !a.DrainOne? {
      CountUpdate(InSelect, s.threads, a.t, Apply(s, a).threads[a.t], 0);
      CountUpdate(OnItsWayOut, s.threads, a.t, Apply(s, a).threads[a.t], 0);
    }
  }

  lemma CloserWorkAfter(s: State, a: Action)
    requires Inv(s) && Enabled(s, a) && s.closed
    ensures CloserWork(Apply(s, a)) == CloserWork(s) - if a.WaitOver? || a.DrainEnd? then 1 else 0
  {
    if !a.Spawn? {
      assert ThreadOk(s, a.t);
    }
  }

  lemma StepWork(s: State, a: Action)
    requires Inv(s) && Enabled(s, a) && s.closed
    ensures Work(Apply(s, a)) + (if Progress(a) then 1 else 0) <= Work(s)
  {
    CountsAfter(s, a);
    CloserWorkAfter(s, a);
  }

  function ProgressSteps(acts: seq<Action>): nat {
    if acts == [] then 0 else ProgressSteps(acts[..|acts| - 1]) + if Progress(acts[|acts| - 1]) then 1 else 0
  }

  /** From the moment of closing only a bounded number of such steps can still be taken. */
  lemma {:induction false} CloseTerminates(run: seq<State>, acts: seq<Action>, buffer: int, p: nat, n: nat)
    requires Run(run, acts, buffer) && p <= n < |run| && run[p].closed
    ensures Work(run[n]) + ProgressSteps(acts[p..n]) <= Work(run[p])
  {
    if p < n {
      CloseTerminates(run, acts, buffer, p, n - 1);
      ClosedOnwards(run, acts, buffer, p, n - 1);
      Reachable(run, acts, buffer, n - 1);
      assert StepAt(run, acts, n - 1);
      StepWork(run[n - 1], acts[n - 1]);
      assert acts[p..n][..n - 1 - p] == acts[p..n - 1];
    }
  }

  lemma {:induction false} CountedThread(threads: seq<Thread>) returns (t: nat)
    requires Count(Counted, threads, 0) > 0
    ensures t < |threads| && Counted(threads[t], 0)
  {
    var last := |threads| - 1;
    if Counted(threads[last], 0) {
      t := last;
    } else {
      t := CountedThread(threads[..last]);
    }
  }

  /** Until the close is through, a put in flight or the closer itself can take such a step: nobody waits for ever. */
  lemma CloseNeverStuck(s: State) returns (a: Action)
    requires Inv(s) && s.closed && s.once != Finished
    ensures Progress(a) && Enabled(s, a)
    ensures !a.Enqueue? && !a.Receive? && !a.Timeout?
  {
    if s.inFlight > 0 {
      var t := CountedThread(s.threads);
      a := if s.threads[t].InFlight? then SeeClosed(t) else Done(t);
    } else {
      var t := s.once.first;
      a := if s.threads[t] == Waiting then WaitOver(t) else if s.queue == [] then DrainEnd(t) else DrainOne(t);
    }
  }
}
