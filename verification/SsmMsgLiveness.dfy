/**
 SSMMsg never gets stuck, never works forever on finitely many calls, and drains
 completely on shutdown.
 */
module SsmMsgLiveness {
  import opened Tally
  import opened SsmMsg
  import opened SsmMsgInvariant

  // ---------------------------------------------------------- pairing

  /** In every reachable state no two in-flight clients share a slot. */
  lemma SlotsExclusive(states: seq<State>, moves: seq<Move>, handler: Handler, n: nat, c: nat, d: nat)
    requires Run(states, moves, handler) && n < |states|
    requires c < |states[n].pcs| && d < |states[n].pcs| && c != d
    requires Holding(states[n].pcs[c]) && Holding(states[n].pcs[d])
    ensures Shape(states[n])
    ensures states[n].data[c].server != states[n].data[d].server
    ensures states[n].data[c].server < |states[n].servers|
    ensures SBusy(states[n].servers[states[n].data[c].server])
  {
    RunInv(states, moves, handler, n);
    assert SlotOk(states[n].servers[states[n].data[c].server], states[n].slots[states[n].data[c].server],
                  states[n].pcs, states[n].data);
  }

  // ---------------------------------------------------------- no deadlock

  /** A move that advances an unfinished call or a thread, or lets go of the mutex. */
  ghost predicate Useful(s: State, m: Move) {
    && Enabled(s, m)
    && (m.ClientMove? ==> !s.pcs[m.client].Idle?)
    && (m.StopMove? ==> StopMutex(s.stop))
  }

  /** Whoever is inside the mutex can move; if nobody is, the mutex is free. */
  lemma MutexProgress(s: State) returns (m: Move)
    requires Inv(s) && s.k.mutex == 0
    ensures Useful(s, m)
  {
    if StopMutex(s.stop) {
      m := StopMove;
    } else if Count(s.pcs, CMutex) > 0 {
      var c := CountWitness(s.pcs, CMutex);
      m := ClientMove(c, []);
    } else {
      var i := CountWitness(s.servers, SMutex);
      m := ServerMove(i);
    }
  }

  /** While a thread waits for its number to be read, somebody can move the pact on. */
  lemma PactProgress(s: State, i: nat) returns (m: Move)
    requires Inv(s) && i < |s.servers| && s.servers[i].AwaitAck?
    ensures Useful(s, m)
  {
    CountMember(s.servers, i, SAck);
    if s.k.pactRead > 0 {
      m := ServerMove(i);
    } else if Count(s.pcs, CPact) > 0 {
      var c := CountWitness(s.pcs, CPact);
      m := ClientMove(c, []);
    } else if Count(s.pcs, CMatched) > 0 {
      var c := CountWitness(s.pcs, CMatched);
      m := ClientMove(c, []);
    } else {
      assert !Draining(s.stop);
      var c := CountWitness(s.pcs, CQueued);
      m := ClientMove(c, []);
    }
  }

  /** A thread that has taken a token never blocks for good. */
  lemma ServerProgress(s: State, i: nat) returns (m: Move)
    requires Inv(s) && i < |s.servers| && !s.servers[i].AwaitClient? && !s.servers[i].Stopped?
    ensures Useful(s, m)
  {
    var p := s.servers[i];
    assert SlotOk(p, s.slots[i], s.pcs, s.data);
    if ServerReady(p, s.k, s.slots[i]) {
      m := ServerMove(i);
    } else if p.LockBusy? || p.LockIdle? {
      m := MutexProgress(s);
    } else if p.AwaitTurn? {
      var j := CountWitness(s.servers, STurn);
      if s.servers[j].AwaitAck? { m := PactProgress(s, j); } else { m := ServerMove(j); }
    } else if p.AwaitAck? {
      m := PactProgress(s, i);
    } else {
      assert p.AwaitWritten? || p.AwaitRead?;
      m := ClientMove(s.slots[i].partner.client, []);
    }
  }

  /** With every thread waiting for a client, an admitted client's token is on the semaphore. */
  lemma QueueProgress(s: State, c: nat) returns (m: Move)
    requires Inv(s) && |s.servers| > 0 && c < |s.pcs| && Admitted(s.pcs[c])
    requires forall i :: 0 <= i < |s.servers| ==> s.servers[i].AwaitClient?
    ensures Useful(s, m)
  {
    TableClear(s);
    CountNone(s.servers, SClaimed);
    CountNone(s.servers, SStopped);
    if CQueued(s.pcs[c]) && !s.pcs[c].UnlockEntry? {
      CountMember(s.pcs, c, CQueued);
      m := ServerMove(0);
    } else {
      m := ClientMove(c, []);
    }
  }

  /** No deadlock: while a call is admitted and unfinished, some useful move is enabled. */
  lemma Progress(s: State, c: nat) returns (m: Move)
    requires Inv(s) && |s.servers| > 0 && c < |s.pcs| && Admitted(s.pcs[c])
    ensures Useful(s, m)
  {
    assert !Draining(s.stop);
    if i :| 0 <= i < |s.servers| && !s.servers[i].AwaitClient? {
      m := ServerProgress(s, i);
    } else {
      m := QueueProgress(s, c);
    }
  }

  /** Moves of its own after which the stopper is out of the mutex. */
  function HoldSteps(p: StopPc): nat {
    match p
    case StopAccepting => 2
    case PollCheck => 2
    case StopUnlock => 1
    case PollUnlock => 1
    case DrainUnlock => 1
    case _ => 0
  }

  /** The state once the stopper has left the mutex, which nothing can keep it from. */
  ghost function LetGo(s: State): State
    decreases HoldSteps(s.stop)
  {
    if HoldSteps(s.stop) == 0 then s else LetGo(StopStep(s))
  }

  lemma {:induction false} LetGoInv(s: State)
    requires Inv(s)
    ensures Inv(LetGo(s)) && !StopMutex(LetGo(s).stop)
    ensures LetGo(s).pcs == s.pcs && |LetGo(s).servers| == |s.servers|
    decreases HoldSteps(s.stop)
  {
    if HoldSteps(s.stop) > 0 {
      StopStepInv(s);
      LetGoInv(StopStep(s));
    }
  }

  /** A step of an unfinished call or of a thread. */
  ghost predicate Advances(s: State, m: Move) {
    Useful(s, m) && !m.StopMove?
  }

  /** No deadlock in any reachable state of any run: while a call is admitted and unfinished,
      some client or thread can move, at once if the stopper is not in the mutex and
      otherwise after at most two steps by which it leaves. */
  lemma NoDeadlock(states: seq<State>, moves: seq<Move>, handler: Handler, n: nat, c: nat)
    requires Run(states, moves, handler) && n < |states|
    requires |states[n].servers| > 0 && c < |states[n].pcs| && Admitted(states[n].pcs[c])
    ensures HoldSteps(states[n].stop) <= 2 && (StopMutex(states[n].stop) <==> HoldSteps(states[n].stop) > 0)
    ensures exists m :: Advances(LetGo(states[n]), m)
  {
    RunInv(states, moves, handler, n);
    LetGoInv(states[n]);
    var m := Progress(LetGo(states[n]), c);
    assert Advances(LetGo(states[n]), m);
  }

  // ---------------------------------------------------------- shutdown

  /** Once the stopper has seen an idle system, every token is a shutdown token. */
  lemma DrainTokens(s: State)
    requires Inv(s) && Draining(s.stop)
    ensures forall c :: 0 <= c < |s.pcs| ==> !Admitted(s.pcs[c])
    ensures Tokens(s.stop, |s.servers|) == s.k.clients + Count(s.servers, SClaimed) + Count(s.servers, SStopped)
    ensures forall i :: 0 <= i < |s.servers| && SClaimed(s.servers[i]) ==> s.servers[i].CheckShutdown? && s.shutdown
  {
    NoneAdmitted(s.pcs);
    assert forall i :: 0 <= i < |s.servers| ==> Parked(s.servers[i]);
    TableClear(s);
    forall i | 0 <= i < |s.servers| && SClaimed(s.servers[i]) ensures s.servers[i].CheckShutdown? && s.shutdown {
      CountMember(s.servers, i, SClaimed);
    }
  }

  lemma {:induction false} ParkedClaims(ss: seq<ServerPc>)
    requires forall i :: 0 <= i < |ss| ==> Parked(ss[i])
    ensures Count(ss, SClaimed) == Count(ss, SUncounted)
  {
    if ss != [] { ParkedClaims(ss[1..]); }
  }

  /** The admission counter stays between zero and the queue limit, also while draining. */
  lemma QueueBounded(states: seq<State>, moves: seq<Move>, handler: Handler, n: nat)
    requires Run(states, moves, handler) && n < |states|
    ensures 0 <= states[n].k.waiting <= MESSAGES_IN_QUEUE
    ensures 0 <= states[n].k.busy <= |states[n].servers|
  {
    RunInv(states, moves, handler, n);
    if Draining(states[n].stop) {
      DrainTokens(states[n]);
      ParkedClaims(states[n].servers);
    }
  }

  /** The drain is never blocked: until the last join some thread or the stopper can move. */
  lemma DrainProgress(s: State) returns (m: Move)
    requires Inv(s) && Draining(s.stop) && !s.stop.StopDone?
    ensures Enabled(s, m) && !m.ClientMove?
  {
    DrainTokens(s);
    if StopEnabled(s) {
      m := StopMove;
    } else {
      var i := s.stop.joined;
      if Count(s.servers, SClaimed) > 0 {
        var j := CountWitness(s.servers, SClaimed);
        m := ServerMove(j);
      } else {
        CountAll(s.servers, SStopped);
        m := ServerMove(i);
      }
    }
  }

  /** When stop_serve_clients returns, each thread has taken exactly one of the tokens posted for it. */
  lemma ShutdownComplete(states: seq<State>, moves: seq<Move>, handler: Handler, n: nat)
    requires Run(states, moves, handler) && n < |states| && states[n].stop.StopDone?
    ensures forall i :: 0 <= i < |states[n].servers| ==> states[n].servers[i].Stopped?
    ensures forall c :: 0 <= c < |states[n].pcs| ==> !Admitted(states[n].pcs[c])
    ensures states[n].k.clients == 0 && states[n].k.waiting == 0 && states[n].k.busy == 0
  {
    RunInv(states, moves, handler, n);
    var s := states[n];
    DrainTokens(s);
    NoneAdmitted(s.pcs);
    CountAll(s.servers, SStopped);
    CountNone(s.servers, SUncounted);
    CountNone(s.servers, SClaimed);
    CountNone(s.servers, SBusy);
  }

  lemma {:induction false} DrainingPersists(states: seq<State>, moves: seq<Move>, handler: Handler, n: nat, later: nat)
    requires Run(states, moves, handler) && n <= later < |states| && Draining(states[n].stop)
    ensures Draining(states[later].stop)
  {
    if n < later {
      DrainingPersists(states, moves, handler, n, later - 1);
      DrainingStays(states[later - 1], moves[later - 1], handler);
    }
  }

  /** After the stopper's idle reading no call is ever admitted again. */
  lemma NoLateAdmission(states: seq<State>, moves: seq<Move>, handler: Handler, n: nat, later: nat)
    requires Run(states, moves, handler) && n <= later < |states| && Draining(states[n].stop)
    ensures Draining(states[later].stop)
    ensures forall c :: 0 <= c < |states[later].pcs| ==> !Admitted(states[later].pcs[c])
  {
    DrainingPersists(states, moves, handler, n, later);
    RunInv(states, moves, handler, later);
    DrainingAdmitsNone(states[later]);
  }

  lemma DrainingStays(s: State, m: Move, handler: Handler)
    requires Enabled(s, m) && Draining(s.stop)
    ensures Draining(Apply(s, m, handler).stop)
  {
  }

  lemma DrainingAdmitsNone(s: State)
    requires Inv(s) && Draining(s.stop)
    ensures forall c :: 0 <= c < |s.pcs| ==> !Admitted(s.pcs[c])
  {
  }

  // ---------------------------------------------------------- bounded work

  /** Steps a client still has to take, and pays for on behalf of the thread that will serve it. */
  function ClientWork(pc: ClientPc): nat {
    match pc
    case Idle => 0
    case LockEntry => 33
    case CheckAdmission => 32
    case IncWaiting => 31
    case PostClient => 30
    case UnlockEntry => 10
    case AwaitServer => 9
    case AwaitPact => 8
    case ReadSlot => 7
    case AckPact => 6
    case WriteBlock => 5
    case PostWritten => 4
    case AwaitProcessed => 3
    case ReadBlock => 2
    case PostRead => 1
    case UnlockDenied => 1
  }

  /** Steps a thread still has to take before it waits for a client again. */
  function ServerWork(pc: ServerPc): nat {
    match pc
    case AwaitClient => 0
    case PostServer => 1
    case UnlockIdle => 2
    case DecBusy => 3
    case LockIdle => 4
    case AwaitRead => 5
    case PostProcessed => 6
    case Process => 7
    case AwaitWritten => 8
    case ReleaseTurn => 9
    case AwaitAck => 10
    case PostPact => 11
    case WriteSlot => 12
    case AwaitTurn => 13
    case UnlockBusy => 14
    case IncBusy => 15
    case DecWaiting => 16
    case LockBusy => 17
    case CheckShutdown => 18
    case Stopped => 0
  }

  function Work(s: State): int {
    Weigh(s.pcs, ClientWork) + Weigh(s.servers, ServerWork) + 19 * s.k.clients
  }

  /** Each step of a call in progress costs at least one unit, posting a token included. */
  lemma ClientPays(pc: ClientPc, k: Counters, admit: bool)
    requires !pc.Idle?
    ensures ClientWork(ClientNext(pc, admit)) + 19 * ClientCount(pc, k).clients < ClientWork(pc) + 19 * k.clients
  {
  }

  lemma ServerPays(pc: ServerPc, k: Counters, shutdown: bool)
    requires !pc.Stopped?
    ensures ServerWork(ServerNext(pc, shutdown)) + 19 * ServerCount(pc, k).clients < ServerWork(pc) + 19 * k.clients
  {
  }

  /** A step that is not the start of a new call uses up work. */
  lemma WorkDecreases(s: State, m: Move, handler: Handler)
    requires Useful(s, m) && !m.StopMove?
    ensures Work(Apply(s, m, handler)) < Work(s)
  {
    match m
    case ClientMove(c, request) =>
      var admit := s.k.waiting < MESSAGES_IN_QUEUE && s.accepting;
      ClientPays(s.pcs[c], s.k, admit);
      WeighUpdate(s.pcs, c, ClientNext(s.pcs[c], admit), ClientWork);
    case ServerMove(i) =>
      ServerPays(s.servers[i], s.k, s.shutdown);
      WeighUpdate(s.servers, i, ServerNext(s.servers[i], s.shutdown), ServerWork);
  }

  /** The work left, with that of the shutdown tokens still to be posted. */
  ghost function AllWork(s: State): int {
    Work(s) + 19 * (|s.servers| - Tokens(s.stop, |s.servers|))
  }

  /** The stopper adds no work. */
  lemma StopKeepsWork(s: State)
    requires Inv(s) && StopEnabled(s)
    ensures AllWork(StopStep(s)) == AllWork(s)
  {
  }

  lemma OthersKeepStop(s: State, m: Move, handler: Handler)
    requires Enabled(s, m) && !m.StopMove?
    ensures Apply(s, m, handler).stop == s.stop && |Apply(s, m, handler).servers| == |s.servers|
  {
  }

  /** A schedule from a reachable state: clients, threads and the stopper in any order,
      without new calls. */
  ghost predicate Schedule(states: seq<State>, moves: seq<Move>, handler: Handler) {
    && |states| == |moves| + 1 && Inv(states[0])
    && forall n :: 0 <= n < |moves| ==>
         && Enabled(states[n], moves[n]) && states[n + 1] == Apply(states[n], moves[n], handler)
         && (moves[n].ClientMove? ==> !states[n].pcs[moves[n].client].Idle?)
  }

  /** The moves of clients and threads among the first n. */
  function Moved(moves: seq<Move>, n: nat): nat
    requires n <= |moves|
  {
    if n == 0 then 0 else Moved(moves, n - 1) + Bit(!moves[n - 1].StopMove?)
  }

  /** The clients and threads of a schedule cannot go on for ever, whatever the stopper does:
      their moves are bounded by the work at its start. */
  lemma {:induction false} ScheduleBounded(states: seq<State>, moves: seq<Move>, handler: Handler, n: nat)
    requires Schedule(states, moves, handler) && n <= |moves|
    ensures Inv(states[n]) && Moved(moves, n) + AllWork(states[n]) <= AllWork(states[0])
  {
    if n > 0 {
      var s, m := states[n - 1], moves[n - 1];
      ScheduleBounded(states, moves, handler, n - 1);
      if m.StopMove? {
        StopKeepsWork(s);
      } else {
        WorkDecreases(s, m, handler);
        OthersKeepStop(s, m, handler);
      }
      StepInv(s, m, handler);
    }
  }

  lemma WorkNonNegative(s: State)
    requires Inv(s)
    ensures AllWork(s) >= 0
  {
  }

  /** A call that is not admitted yet, or was refused, can move, or somebody else can. */
  lemma EntryProgress(s: State, c: nat) returns (m: Move)
    requires Inv(s) && c < |s.pcs| && !Admitted(s.pcs[c]) && !s.pcs[c].Idle?
    ensures Useful(s, m)
  {
    if s.pcs[c].LockEntry? && s.k.mutex == 0 {
      m := MutexProgress(s);
    } else {
      m := ClientMove(c, []);
    }
  }

  /**
   Every call returns: clients and threads make at most AllWork moves, and when none of
   them can move any more, the stopper being out of the mutex, no call is in progress.
   */
  lemma EveryCallReturns(states: seq<State>, moves: seq<Move>, handler: Handler)
    requires Schedule(states, moves, handler) && |states[|moves|].servers| > 0
    ensures Moved(moves, |moves|) <= AllWork(states[0])
    ensures !StopMutex(states[|moves|].stop) && (forall m :: !Advances(states[|moves|], m)) ==>
      forall c :: 0 <= c < |states[|moves|].pcs| ==> states[|moves|].pcs[c] == Idle
  {
    ScheduleBounded(states, moves, handler, |moves|);
    var s := states[|moves|];
    WorkNonNegative(s);
    if !StopMutex(s.stop) && forall m :: !Advances(s, m) {
      AllReturned(s);
    }
  }

  lemma AllReturned(s: State)
    requires Inv(s) && |s.servers| > 0 && !StopMutex(s.stop) && forall m :: !Advances(s, m)
    ensures forall c :: 0 <= c < |s.pcs| ==> s.pcs[c] == Idle
  {
    forall c | 0 <= c < |s.pcs| ensures s.pcs[c] == Idle {
      if Admitted(s.pcs[c]) {
        var m := Progress(s, c);
        assert Advances(s, m);
      } else if s.pcs[c] != Idle {
        var m := EntryProgress(s, c);
        assert Advances(s, m);
      }
    }
  }

  // ---------------------------------------------------------- thread indices

  /**
   serve_clients passes every thread the same parameter block, rewritten before each
   thread is created. Thread j reads its index some time after its creation, so it
   may find any value written from then on.
   */
  ghost predicate IndicesRead(picks: seq<nat>) {
    forall j :: 0 <= j < |picks| ==> j <= picks[j] < |picks|
  }

  predicate Distinct(picks: seq<nat>) {
    forall i, j :: 0 <= i < j < |picks| ==> picks[i] != picks[j]
  }

  /** The indices are distinct under every timing exactly when there is at most one thread. */
  lemma DistinctIndicesIffSingle(threads: nat)
    ensures (forall picks: seq<nat> :: |picks| == threads && IndicesRead(picks) ==> Distinct(picks)) <==> threads <= 1
  {
    if threads > 1 {
      var late: seq<nat> := seq(threads, j => threads - 1);
      assert IndicesRead(late) && late[0] == late[1];
      assert !Distinct(late);
    }
  }
}
