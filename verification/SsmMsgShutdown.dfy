/**
 stop_serve_clients returns: it polls until the system is idle, and exactly then goes on;
 from there it takes a bounded number of steps, whatever new calls come and are refused.
 */
module SsmMsgShutdown {
  import opened Tally
  import opened SsmMsg
  import opened SsmMsgInvariant
  import opened SsmMsgLiveness

  // ---------------------------------------------------------- closing

  /** Moves of its own before the stopper polls for the first time. */
  function ToPoll(p: StopPc): nat {
    match p
    case NotStopping => 4
    case StopLock => 3
    case StopAccepting => 2
    case StopUnlock => 1
    case _ => 0
  }

  /** The moves of the stopper among the first n. */
  function Stops(moves: seq<Move>, n: nat): nat
    requires n <= |moves|
  {
    if n == 0 then 0 else Stops(moves, n - 1) + Bit(moves[n - 1].StopMove?)
  }

  /** In every run, from the third move of the stopper on the server is closed, and from the
      fourth on it is polling or past it. */
  lemma {:induction false} StopCloses(states: seq<State>, moves: seq<Move>, handler: Handler, n: nat)
    requires Run(states, moves, handler) && n < |states|
    ensures ToPoll(states[n].stop) == if Stops(moves, n) < 4 then 4 - Stops(moves, n) else 0
    ensures states[n].accepting <==> Stops(moves, n) < 3
  {
    RunInv(states, moves, handler, n);
    if n > 0 {
      StopCloses(states, moves, handler, n - 1);
      if moves[n - 1].StopMove? {
        StopRanks(states[n - 1]);
      } else {
        OthersKeepStop(states[n - 1], moves[n - 1], handler);
      }
    }
  }

  lemma StopRanks(s: State)
    requires StopEnabled(s)
    ensures ToPoll(StopStep(s).stop) == if ToPoll(s.stop) > 0 then ToPoll(s.stop) - 1 else 0
  {
  }

  // ---------------------------------------------------------- polling

  /** No call is admitted and every thread waits for a client, or is about to. */
  ghost predicate Quiet(s: State) {
    && (forall c :: 0 <= c < |s.pcs| ==> !Admitted(s.pcs[c]))
    && (forall i :: 0 <= i < |s.servers| ==> s.servers[i].PostServer? || s.servers[i].AwaitClient?)
  }

  lemma QuietReads(s: State)
    requires Inv(s) && Quiet(s) && !Draining(s.stop)
    ensures s.k.waiting == 0 && s.k.busy == 0
  {
    NoneAdmitted(s.pcs);
    CountNone(s.servers, SClaimed);
    CountNone(s.servers, SUncounted);
    CountNone(s.servers, SBusy);
    CountNone(s.servers, SStopped);
    TableClear(s);
  }

  /** In every run the poll ends if and only if the system is idle. */
  lemma PollIff(states: seq<State>, moves: seq<Move>, handler: Handler, n: nat)
    requires Run(states, moves, handler) && n < |moves| && moves[n] == StopMove && states[n].stop == PollCheck
    ensures states[n + 1].stop == (if Quiet(states[n]) then DrainUnlock else PollUnlock)
  {
    RunInv(states, moves, handler, n);
    var s := states[n];
    if s.k.waiting == 0 && s.k.busy == 0 {
      IdleSystem(s);
    }
    if Quiet(s) {
      QuietReads(s);
    }
  }

  lemma AllWaiting(s: State)
    requires Inv(s) && |s.servers| > 0 && !StopMutex(s.stop) && !Draining(s.stop) && forall m :: !Advances(s, m)
    ensures Quiet(s)
  {
    AllReturned(s);
    forall i | 0 <= i < |s.servers| ensures s.servers[i].AwaitClient? {
      if !s.servers[i].AwaitClient? {
        var m := ServerProgress(s, i);
        assert Advances(s, m);
      }
    }
  }

  /** When clients and threads have come to rest, the next poll is the last. */
  lemma RestPolled(s: State)
    requires Inv(s) && |s.servers| > 0 && s.stop == PollLock && forall m :: !Advances(s, m)
    ensures StopEnabled(s) && StopEnabled(StopStep(s)) && StopStep(StopStep(s)).stop == DrainUnlock
  {
    AllWaiting(s);
    QuietReads(s);
    if s.k.mutex == 0 {
      var m := MutexProgress(s);
      assert Advances(s, m);
    }
  }

  // ---------------------------------------------------------- the drain

  function StopWork(p: StopPc, servers: nat): int {
    match p
    case DrainUnlock => 2 * servers + 4
    case SetShutdown => 2 * servers + 3
    case PostTokens(n) => 2 * servers + 2 - n
    case Join(n) => servers + 1 - n
    case _ => 0
  }

  /** Steps the stopper and the threads still have to take. */
  ghost function DrainWork(s: State): int {
    StopWork(s.stop, |s.servers|) + Weigh(s.servers, ServerWork) + 19 * (s.k.clients + |s.servers| - Tokens(s.stop, |s.servers|))
  }

  lemma StopPays(s: State)
    requires Inv(s) && Draining(s.stop) && StopEnabled(s)
    ensures Draining(StopStep(s).stop) && DrainWork(StopStep(s)) < DrainWork(s)
  {
  }

  lemma ThreadPays(s: State, i: nat, handler: Handler)
    requires Inv(s) && Draining(s.stop) && ServerEnabled(s, i)
    ensures DrainWork(ServerStep(s, i, handler)) < DrainWork(s)
  {
    ServerPays(s.servers[i], s.k, s.shutdown);
    WeighUpdate(s.servers, i, ServerNext(s.servers[i], s.shutdown), ServerWork);
  }

  lemma CallsCostNothing(s: State, c: nat, request: Message)
    requires Inv(s) && Draining(s.stop) && ClientEnabled(s, c)
    ensures DrainWork(ClientStep(s, c, request)) == DrainWork(s)
  {
    assert !Admitted(s.pcs[c]);
  }

  lemma StepPays(s: State, m: Move, handler: Handler)
    requires Inv(s) && Draining(s.stop) && Enabled(s, m)
    ensures DrainWork(Apply(s, m, handler)) <= DrainWork(s) - Bit(!m.ClientMove?)
  {
    match m
    case ClientMove(c, request) => CallsCostNothing(s, c, request);
    case ServerMove(i) => ThreadPays(s, i, handler);
    case StopMove => StopPays(s);
  }

  lemma DrainWorkBound(s: State)
    requires Inv(s) && Draining(s.stop)
    ensures DrainWork(s) >= 0
  {
  }

  /** The moves of threads and of the stopper from a to b. */
  function Spent(moves: seq<Move>, a: nat, b: nat): nat
    requires a <= b <= |moves|
  {
    if a == b then 0 else Spent(moves, a, b - 1) + Bit(!moves[b - 1].ClientMove?)
  }

  lemma MoveSpends(states: seq<State>, moves: seq<Move>, handler: Handler, a: nat, n: nat)
    requires Run(states, moves, handler) && a <= n < |moves| && Draining(states[a].stop)
    ensures DrainWork(states[n + 1]) <= DrainWork(states[n]) - Bit(!moves[n].ClientMove?)
  {
    RunInv(states, moves, handler, n);
    DrainingPersists(states, moves, handler, a, n);
    StepPays(states[n], moves[n], handler);
  }

  lemma {:induction false} Descent(works: seq<int>, moves: seq<Move>, a: nat, b: nat)
    requires a <= b <= |moves| < |works|
    requires forall n :: a <= n < b ==> works[n + 1] <= works[n] - Bit(!moves[n].ClientMove?)
    ensures Spent(moves, a, b) + works[b] <= works[a]
    decreases b
  {
    if a < b {
      Descent(works, moves, a, b - 1);
      assert works[b - 1 + 1] <= works[b - 1] - Bit(!moves[b - 1].ClientMove?);
    }
  }

  lemma DrainSpends(states: seq<State>, moves: seq<Move>, handler: Handler, a: nat, b: nat)
    requires Run(states, moves, handler) && a <= b < |states| && Draining(states[a].stop)
    ensures Spent(moves, a, b) + DrainWork(states[b]) <= DrainWork(states[a])
  {
    var works := seq(|states|, n requires 0 <= n < |states| => DrainWork(states[n]));
    forall n | a <= n < b ensures works[n + 1] <= works[n] - Bit(!moves[n].ClientMove?) {
      MoveSpends(states, moves, handler, a, n);
    }
    Descent(works, moves, a, b);
  }

  /** From the idle reading on, in every run: threads and stopper make a bounded number of
      moves, and as long as stop_serve_clients has not returned one of them can move. */
  lemma ShutdownEnds(states: seq<State>, moves: seq<Move>, handler: Handler, a: nat, b: nat)
    requires Run(states, moves, handler) && a <= b < |states| && Draining(states[a].stop)
    ensures Spent(moves, a, b) <= DrainWork(states[a])
    ensures !states[b].stop.StopDone? ==> exists m :: Enabled(states[b], m) && !m.ClientMove?
  {
    RunInv(states, moves, handler, b);
    DrainingPersists(states, moves, handler, a, b);
    DrainSpends(states, moves, handler, a, b);
    DrainWorkBound(states[b]);
    if !states[b].stop.StopDone? {
      var m := DrainProgress(states[b]);
    }
  }
}
