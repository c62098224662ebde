/**
 SSMMsg refines an atomic service: one that admits or refuses a request in a single
 indivisible step, refusing only when its queue is full or it is closed, and answers an
 admitted one in another. Every interleaving of the rendezvous is, seen through `View`, a
 run of that service, so each admitted call is answered exactly once, by the handler
 applied to its own request, at one point between its start and its return.
 */
module SsmMsgService {
  import opened Tally
  import opened SsmMsg
  import opened SsmMsgInvariant

  datatype Phase =
    | Quiet(last: Outcome) | Pending(request: Message) | Accepted(request: Message) | Served(request: Message, reply: Message)

  /** `queue` counts the requests admitted and not yet taken up by a thread. */
  datatype Service = Service(phases: seq<Phase>, log: seq<Call>, open: bool, queue: int)

  datatype Event =
    | Invoke(client: nat, request: Message) | Admit(client: nat) | Refuse(client: nat)
    | Take | Serve(client: nat) | Return(client: nat) | Close | Nothing

  /** One step of the atomic service. */
  ghost predicate ServiceStep(a: Service, e: Event, a': Service, handler: Handler) {
    match e
    case Invoke(c, request) =>
      c < |a.phases| && a.phases[c].Quiet? && a' == a.(phases := a.phases[c := Pending(request)])
    case Admit(c) =>
      && c < |a.phases| && a.phases[c].Pending? && a.open && a.queue < MESSAGES_IN_QUEUE
      && a' == a.(phases := a.phases[c := Accepted(a.phases[c].request)], queue := a.queue + 1)
    case Refuse(c) =>
      && c < |a.phases| && a.phases[c].Pending? && (!a.open || a.queue == MESSAGES_IN_QUEUE)
      && a' == a.(phases := a.phases[c := Quiet(Denied)])
    case Take => a.queue > 0 && a' == a.(queue := a.queue - 1)
    case Serve(c) =>
      c < |a.phases| && a.phases[c].Accepted? &&
      var request := a.phases[c].request;
      var reply := handler(Requests(a.log), request);
      a' == a.(phases := a.phases[c := Served(request, reply)], log := a.log + [Call(request, reply)])
    case Return(c) =>
      c < |a.phases| && a.phases[c].Served? && a' == a.(phases := a.phases[c := Quiet(Answered(a.phases[c].reply))])
    case Close => a' == a.(open := false)
    case Nothing => a' == a
  }

  /** The thread of this slot has run the handler for its partner. */
  predicate Answering(p: ServerPc) { p.PostProcessed? || p.AwaitRead? }

  function PhaseOf(pc: ClientPc, d: ClientData, p: ServerPc, t: Slot): Phase {
    if pc.Idle? then Quiet(d.outcome)
    else if pc.PostRead? then Served(d.request, d.buf)
    else if pc.ReadBlock? || (pc.AwaitProcessed? && Answering(p)) then Served(d.request, t.block)
    else if pc.LockEntry? || pc.CheckAdmission? || pc.IncWaiting? || pc.UnlockDenied? then Pending(d.request)
    else Accepted(d.request)
  }

  function PhaseAt(s: State, c: nat): Phase
    requires c < |s.pcs| == |s.data| && |s.slots| == |s.servers|
  {
    var i := s.data[c].server;
    PhaseOf(s.pcs[c], s.data[c], if i < |s.servers| then s.servers[i] else PostServer, SlotAt(s, i))
  }

  ghost function View(s: State): Service
    requires Shape(s)
  {
    Service(seq(|s.pcs|, c requires 0 <= c < |s.pcs| => PhaseAt(s, c)), s.log, s.accepting, s.k.waiting)
  }

  /** What a move means to the service. */
  ghost function EventOf(s: State, m: Move): Event
    requires Shape(s) && Enabled(s, m)
  {
    match m
    case ClientMove(c, request) =>
      if s.pcs[c].Idle? then Invoke(c, request)
      else if s.pcs[c].IncWaiting? then Admit(c)
      else if s.pcs[c].PostRead? then Return(c)
      else if s.pcs[c].UnlockDenied? then Refuse(c)
      else Nothing
    case ServerMove(i) =>
      if s.servers[i].Process? && s.slots[i].partner.Bound? then Serve(s.slots[i].partner.client)
      else if s.servers[i].DecWaiting? then Take else Nothing
    case StopMove => if s.stop.StopAccepting? then Close else Nothing
  }

  // ---------------------------------------------------------- refinement

  /** A client step does not change what the service sees of another client. */
  lemma ClientFrame(s: State, c: nat, request: Message, other: nat)
    requires DataInv(s) && ClientEnabled(s, c) && other < |s.pcs| && other != c
    ensures PhaseAt(ClientStep(s, c, request), other) == PhaseAt(s, other)
  {
    var s' := ClientStep(s, c, request);
    assert s'.pcs[other] == s.pcs[other] && s'.data[other] == s.data[other] && s'.servers == s.servers;
    if Holding(s.pcs[other]) {
      var i := s.data[other].server;
      assert s.slots[i].partner == Bound(other);
      assert s'.slots[i].block == s.slots[i].block;
    }
  }

  /** What the service sees of a client that works on its slot. */
  lemma HolderOwn(s: State, c: nat, request: Message)
    requires DataInv(s) && ClientEnabled(s, c) && Holding(s.pcs[c])
    ensures PhaseAt(ClientStep(s, c, request), c) ==
      if s.pcs[c].PostRead? then Quiet(Answered(PhaseAt(s, c).reply)) else PhaseAt(s, c)
  {
    var i := s.data[c].server;
    assert s.slots[i].partner == Bound(c);
    assert HeldSlotOk(s.servers[i], s.slots[i], s.pcs[c], s.data[c]);
  }

  /** What the service sees of a client that has no slot yet. */
  lemma EntrantOwn(s: State, c: nat, request: Message)
    requires Shape(s) && ClientEnabled(s, c) && !Holding(s.pcs[c])
    ensures PhaseAt(ClientStep(s, c, request), c) ==
      if s.pcs[c].Idle? then Pending(request)
      else if s.pcs[c].IncWaiting? then Accepted(s.data[c].request)
      else if s.pcs[c].UnlockDenied? then Quiet(Denied)
      else PhaseAt(s, c)
  {
  }

  /** What the service sees of the client that moves. */
  lemma ClientOwn(s: State, c: nat, request: Message)
    requires DataInv(s) && ClientEnabled(s, c)
    ensures var s', pc := ClientStep(s, c, request), s.pcs[c];
            PhaseAt(s', c) ==
            if pc.Idle? then Pending(request)
            else if pc.IncWaiting? then Accepted(s.data[c].request)
            else if pc.PostRead? then Quiet(Answered(PhaseAt(s, c).reply))
            else if pc.UnlockDenied? then Quiet(Denied)
            else PhaseAt(s, c)
  {
    if Holding(s.pcs[c]) {
      HolderOwn(s, c, request);
    } else {
      EntrantOwn(s, c, request);
    }
  }

  lemma ClientRefines(s: State, c: nat, request: Message, handler: Handler)
    requires Inv(s) && ClientEnabled(s, c)
    ensures ServiceStep(View(s), EventOf(s, ClientMove(c, request)), View(ClientStep(s, c, request)), handler)
  {
    var a, a' := View(s), View(ClientStep(s, c, request));
    ClientOwn(s, c, request);
    forall d | 0 <= d < |s.pcs| && d != c ensures a'.phases[d] == a.phases[d] {
      ClientFrame(s, c, request, d);
    }
    assert a'.phases == a.phases[c := a'.phases[c]];
  }

  /** A server step changes what the service sees only for its partner, and only at the handler. */
  lemma ServerFrame(s: State, i: nat, handler: Handler, c: nat)
    requires DataInv(s) && ServerEnabled(s, i) && c < |s.pcs|
    requires !(s.servers[i].Process? && s.slots[i].partner == Bound(c))
    ensures PhaseAt(ServerStep(s, i, handler), c) == PhaseAt(s, c)
  {
    if Holding(s.pcs[c]) {
      var j := s.data[c].server;
      assert s.slots[j].partner == Bound(c);
      assert HeldSlotOk(s.servers[j], s.slots[j], s.pcs[c], s.data[c]);
    }
  }

  lemma ServerServes(s: State, i: nat, handler: Handler)
    requires DataInv(s) && ServerEnabled(s, i) && s.servers[i].Process?
    ensures s.slots[i].partner.Bound?
    ensures var c := s.slots[i].partner.client;
            && PhaseAt(s, c) == Accepted(s.slots[i].block)
            && PhaseAt(ServerStep(s, i, handler), c)
               == Served(s.slots[i].block, handler(Requests(s.log), s.slots[i].block))
  {
    assert SlotOk(s.servers[i], s.slots[i], s.pcs, s.data);
  }

  /** A thread that takes up a request finds the queue not empty. */
  lemma TakerFinds(s: State, i: nat)
    requires Inv(s) && i < |s.servers| && s.servers[i].DecWaiting?
    ensures s.k.waiting > 0
  {
    CountMember(s.servers, i, SUncounted);
    assert !Draining(s.stop);
  }

  lemma ServerRefines(s: State, i: nat, handler: Handler)
    requires Inv(s) && ServerEnabled(s, i)
    ensures ServiceStep(View(s), EventOf(s, ServerMove(i)), View(ServerStep(s, i, handler)), handler)
  {
    var a, a' := View(s), View(ServerStep(s, i, handler));
    if s.servers[i].Process? { ServerServes(s, i, handler); }
    if s.servers[i].DecWaiting? { TakerFinds(s, i); }
    forall c | 0 <= c < |s.pcs| && !(s.servers[i].Process? && s.slots[i].partner == Bound(c))
      ensures a'.phases[c] == a.phases[c]
    {
      ServerFrame(s, i, handler, c);
    }
    if s.servers[i].Process? {
      var c := s.slots[i].partner.client;
      assert a'.phases == a.phases[c := a'.phases[c]];
    } else {
      assert a'.phases == a.phases;
    }
  }

  /** Every move of the rendezvous is a step of the atomic service, or invisible to it. */
  lemma StepRefines(s: State, m: Move, handler: Handler)
    requires Inv(s) && Enabled(s, m)
    ensures Shape(Apply(s, m, handler))
    ensures ServiceStep(View(s), EventOf(s, m), View(Apply(s, m, handler)), handler)
  {
    StepInv(s, m, handler);
    match m
    case ClientMove(c, request) => ClientRefines(s, c, request, handler);
    case ServerMove(i) => ServerRefines(s, i, handler);
    case StopMove => assert View(StopStep(s)).phases == View(s).phases;
  }

  /** Every run of the rendezvous is, seen through `View`, a run of the atomic service. */
  lemma RunRefines(states: seq<State>, moves: seq<Move>, handler: Handler, n: nat)
    requires Run(states, moves, handler) && n < |moves|
    ensures Inv(states[n]) && Inv(states[n + 1])
    ensures ServiceStep(View(states[n]), EventOf(states[n], moves[n]), View(states[n + 1]), handler)
  {
    RunInv(states, moves, handler, n);
    RunInv(states, moves, handler, n + 1);
    StepRefines(states[n], moves[n], handler);
  }

  // ---------------------------------------------------------- what the service guarantees

  /** Each entry of the log is the handler's answer given the requests before it. */
  ghost predicate LogOk(log: seq<Call>, handler: Handler) {
    forall j :: 0 <= j < |log| ==> log[j].reply == handler(Requests(log[..j]), log[j].request)
  }

  ghost predicate RepliesLogged(a: Service) {
    forall c :: 0 <= c < |a.phases| && a.phases[c].Served? ==> Call(a.phases[c].request, a.phases[c].reply) in a.log
  }

  predicate IsServed(p: Phase) { p.Served? }

  lemma LogExtends(log: seq<Call>, request: Message, handler: Handler)
    requires LogOk(log, handler)
    ensures LogOk(log + [Call(request, handler(Requests(log), request))], handler)
  {
    var log' := log + [Call(request, handler(Requests(log), request))];
    forall j | 0 <= j < |log'| ensures log'[j].reply == handler(Requests(log'[..j]), log'[j].request) {
      assert log'[..j] == if j < |log| then log[..j] else log;
    }
  }

  lemma ServiceStepOk(a: Service, e: Event, a': Service, handler: Handler)
    requires ServiceStep(a, e, a', handler) && LogOk(a.log, handler) && RepliesLogged(a)
    ensures LogOk(a'.log, handler) && RepliesLogged(a')
    ensures |a'.log| + Count(a.phases, IsServed) == |a.log| + Count(a'.phases, IsServed) + Bit(e.Return?)
  {
    if e.Serve? { LogExtends(a.log, a.phases[e.client].request, handler); }
    if e.Invoke? || e.Admit? || e.Refuse? || e.Serve? || e.Return? {
      CountUpdate(a.phases, e.client, a'.phases[e.client], IsServed);
    }
  }

  /** The move is the return of an answered call. */
  ghost predicate Returning(s: State, m: Move) {
    m.ClientMove? && m.client < |s.pcs| && s.pcs[m.client].PostRead?
  }

  lemma StepLog(s: State, m: Move, handler: Handler)
    requires Inv(s) && Enabled(s, m) && LogOk(s.log, handler) && RepliesLogged(View(s))
    ensures var s' := Apply(s, m, handler);
            && Inv(s') && LogOk(s'.log, handler) && RepliesLogged(View(s'))
            && |s'.log| + Count(View(s).phases, IsServed)
               == |s.log| + Count(View(s').phases, IsServed) + Bit(Returning(s, m))
  {
    StepInv(s, m, handler);
    StepRefines(s, m, handler);
    ServiceStepOk(View(s), EventOf(s, m), View(Apply(s, m, handler)), handler);
  }

  /** Calls of send_msg that have returned an answer in the first n moves. */
  ghost function Returns(states: seq<State>, moves: seq<Move>, n: nat): nat
    requires n <= |moves| < |states|
  {
    if n == 0 then 0 else Returns(states, moves, n - 1) + Bit(Returning(states[n - 1], moves[n - 1]))
  }

  /**
   Exactly once: in every state of every run, each handler call belongs to one
   returned call or to one call that still holds its reply, and the log is the
   handler's own history.
   */
  lemma {:induction false} ExactlyOnce(states: seq<State>, moves: seq<Move>, handler: Handler, n: nat)
    requires Run(states, moves, handler) && n <= |moves|
    ensures Inv(states[n]) && LogOk(states[n].log, handler) && RepliesLogged(View(states[n]))
    ensures |states[n].log| == Returns(states, moves, n) + Count(View(states[n]).phases, IsServed)
  {
    if n == 0 {
      InitInv(states[0]);
      CountNone(View(states[0]).phases, IsServed);
    } else {
      ExactlyOnce(states, moves, handler, n - 1);
      StepLog(states[n - 1], moves[n - 1], handler);
    }
  }

  /**
   What send_msg hands back is the handler's answer to this very request, at some
   place in the order of handler calls.
   */
  lemma AnswerIsOwn(states: seq<State>, moves: seq<Move>, handler: Handler, n: nat)
    requires Run(states, moves, handler) && n < |moves| && moves[n].ClientMove?
    requires states[n].pcs[moves[n].client].PostRead?
    ensures var s, s', c := states[n], states[n + 1], moves[n].client;
            s'.data[c].outcome.Answered? &&
            exists j :: 0 <= j < |s.log| && s.log[j] == Call(s.data[c].request, s'.data[c].outcome.reply) &&
                        s'.data[c].outcome.reply == handler(Requests(s.log[..j]), s.data[c].request)
  {
    ExactlyOnce(states, moves, handler, n);
    var s, c := states[n], moves[n].client;
    var p := View(s).phases[c];
    assert Call(p.request, p.reply) in s.log;
  }

}
