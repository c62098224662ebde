/** Every step of every client, server thread and stopper keeps the SSMMsg invariant. */
module SsmMsgInvariant {
  import opened Tally
  import opened SsmMsg

  lemma InitLaws(cs: seq<ClientPc>, ss: seq<ServerPc>)
    requires forall c :: 0 <= c < |cs| ==> cs[c] == Idle
    requires forall i :: 0 <= i < |ss| ==> ss[i] == PostServer
    ensures Laws(cs, ss, NotStopping, Counters(0, 0, 1, 1, 0, 0, 0, 0))
  {
    CountNone(cs, CMutex);
    CountNone(cs, CCounted);
    CountNone(cs, CQueued);
    CountNone(cs, CMatched);
    CountNone(cs, CPact);
    CountNone(ss, SMutex);
    CountNone(ss, SUncounted);
    CountNone(ss, SClaimed);
    CountNone(ss, SOffered);
    CountNone(ss, STurn);
    CountNone(ss, SAck);
    CountNone(ss, SBusy);
    CountNone(ss, SStopped);
  }

  lemma InitInv(s: State)
    requires Init(s)
    ensures Inv(s)
  {
    InitLaws(s.pcs, s.servers);
  }

  // ---------------------------------------------------------- populations

  /** The laws of the queue under one client step, whichever step it is. */
  lemma ClientQueueLaws(cs: seq<ClientPc>, ss: seq<ServerPc>, p: StopPc, k: Counters, c: nat, admit: bool, t: Slot)
    requires Laws(cs, ss, p, k) && c < |cs| && ClientReady(cs[c], k, t)
    ensures var cs', k' := cs[c := ClientNext(cs[c], admit)], ClientCount(cs[c], k);
      QueueLaw(cs', ss, p, k') && WaitingLaw(cs', ss, p, k') && OfferLaw(cs', ss, k')
  {
    var x := ClientNext(cs[c], admit);
    CountUpdate(cs, c, x, CCounted);
    CountUpdate(cs, c, x, CQueued);
    CountUpdate(cs, c, x, CMatched);
  }

  /** The counting laws under one client step. */
  lemma ClientLaws(cs: seq<ClientPc>, ss: seq<ServerPc>, p: StopPc, k: Counters, c: nat, admit: bool, t: Slot)
    requires Laws(cs, ss, p, k) && c < |cs| && ClientReady(cs[c], k, t)
    ensures Laws(cs[c := ClientNext(cs[c], admit)], ss, p, ClientCount(cs[c], k))
  {
    var x := ClientNext(cs[c], admit);
    ClientQueueLaws(cs, ss, p, k, c, admit, t);
    CountUpdate(cs, c, x, CMutex);
    CountUpdate(cs, c, x, CPact);
  }

  /** The laws of the queue under one server step. */
  lemma ServerQueueLaws(cs: seq<ClientPc>, ss: seq<ServerPc>, p: StopPc, k: Counters, i: nat, shutdown: bool, t: Slot)
    requires Laws(cs, ss, p, k) && i < |ss| && ServerReady(ss[i], k, t)
    ensures QueueLaw(cs, ss[i := ServerNext(ss[i], shutdown)], p, ServerCount(ss[i], k))
    ensures WaitingLaw(cs, ss[i := ServerNext(ss[i], shutdown)], p, ServerCount(ss[i], k))
    ensures OfferLaw(cs, ss[i := ServerNext(ss[i], shutdown)], ServerCount(ss[i], k))
  {
    var x := ServerNext(ss[i], shutdown);
    CountUpdate(ss, i, x, SUncounted);
    CountUpdate(ss, i, x, SClaimed);
    CountUpdate(ss, i, x, SOffered);
    CountUpdate(ss, i, x, SStopped);
  }

  /** The laws of the mutex and the busy count under one server step. */
  lemma ServerMutexLaws(cs: seq<ClientPc>, ss: seq<ServerPc>, p: StopPc, k: Counters, i: nat, shutdown: bool, t: Slot)
    requires Laws(cs, ss, p, k) && i < |ss| && ServerReady(ss[i], k, t)
    ensures NonNegative(ServerCount(ss[i], k))
    ensures MutexLaw(cs, ss[i := ServerNext(ss[i], shutdown)], p, ServerCount(ss[i], k))
    ensures BusyLaw(ss[i := ServerNext(ss[i], shutdown)], ServerCount(ss[i], k))
  {
    var x := ServerNext(ss[i], shutdown);
    CountUpdate(ss, i, x, SMutex);
    CountUpdate(ss, i, x, SBusy);
  }

  /** The laws of the turn and the pact under one server step. */
  lemma ServerTurnLaws(cs: seq<ClientPc>, ss: seq<ServerPc>, p: StopPc, k: Counters, i: nat, shutdown: bool, t: Slot)
    requires Laws(cs, ss, p, k) && i < |ss| && ServerReady(ss[i], k, t)
    ensures TurnLaw(ss[i := ServerNext(ss[i], shutdown)], ServerCount(ss[i], k))
    ensures PactLaw(cs, ss[i := ServerNext(ss[i], shutdown)], ServerCount(ss[i], k))
  {
    var x := ServerNext(ss[i], shutdown);
    CountUpdate(ss, i, x, STurn);
    CountUpdate(ss, i, x, SAck);
  }

  lemma StopLaws(s: State)
    requires Laws(s.pcs, s.servers, s.stop, s.k) && StopEnabled(s)
    requires s.stop.PostTokens? ==> s.stop.posted <= |s.servers|
    ensures Laws(s.pcs, s.servers, StopNext(s.stop, s.k, |s.servers|), StopCount(s.stop, s.k, |s.servers|))
  {
  }

  // ---------------------------------------------------------- exclusion

  /** A population of at most one: two members of the region are the same. */
  lemma AtMostOne<T>(s: seq<T>, i: nat, j: nat, p: T -> bool)
    requires i < |s| && j < |s| && p(s[i]) && p(s[j]) && Count(s, p) <= 1
    ensures i == j
  {
    if i < j { CountPair(s, i, j, p); }
    if j < i { CountPair(s, j, i, p); }
  }

  /** While the stopper holds the mutex nobody else is inside it. */
  lemma StopExcludes(cs: seq<ClientPc>, ss: seq<ServerPc>, p: StopPc, k: Counters)
    requires NonNegative(k) && MutexLaw(cs, ss, p, k) && StopMutex(p)
    ensures forall c :: 0 <= c < |cs| ==> !CMutex(cs[c])
    ensures forall i :: 0 <= i < |ss| ==> !SMutex(ss[i])
  {
    forall c | 0 <= c < |cs| ensures !CMutex(cs[c]) {
      if CMutex(cs[c]) { CountMember(cs, c, CMutex); }
    }
    forall i | 0 <= i < |ss| ensures !SMutex(ss[i]) {
      if SMutex(ss[i]) { CountMember(ss, i, SMutex); }
    }
  }

  /** While a client is inside the mutex no other party is. */
  lemma ClientExcludes(cs: seq<ClientPc>, ss: seq<ServerPc>, p: StopPc, k: Counters, c: nat)
    requires NonNegative(k) && MutexLaw(cs, ss, p, k) && c < |cs| && CMutex(cs[c])
    ensures forall d :: 0 <= d < |cs| && CMutex(cs[d]) ==> d == c
    ensures forall i :: 0 <= i < |ss| ==> !SMutex(ss[i])
    ensures !StopMutex(p)
  {
    CountMember(cs, c, CMutex);
    forall d | 0 <= d < |cs| && CMutex(cs[d]) ensures d == c {
      AtMostOne(cs, c, d, CMutex);
    }
    forall i | 0 <= i < |ss| ensures !SMutex(ss[i]) {
      if SMutex(ss[i]) { CountMember(ss, i, SMutex); }
    }
  }

  /** While a thread has its turn at the pact, no other thread has. */
  lemma TurnExcludes(ss: seq<ServerPc>, k: Counters, i: nat)
    requires NonNegative(k) && TurnLaw(ss, k) && i < |ss| && STurn(ss[i])
    ensures forall j :: 0 <= j < |ss| && STurn(ss[j]) ==> j == i
    ensures k.pact == 0 && Count(ss, SAck) <= 1
  {
    CountMember(ss, i, STurn);
    forall j | 0 <= j < |ss| && STurn(ss[j]) ensures j == i {
      AtMostOne(ss, i, j, STurn);
    }
    AckWithinTurn(ss);
  }

  lemma {:induction false} AckWithinTurn(ss: seq<ServerPc>)
    ensures Count(ss, SAck) <= Count(ss, STurn)
  {
    if ss != [] { AckWithinTurn(ss[1..]); }
  }

  /** At most one of: announced number, client reading or acknowledging it, acknowledgement. */
  lemma PactExcludes(cs: seq<ClientPc>, ss: seq<ServerPc>, p: StopPc, k: Counters)
    requires Laws(cs, ss, p, k)
    ensures k.pactWritten + Count(cs, CPact) + k.pactRead <= 1
  {
    AckWithinTurn(ss);
  }

  // ---------------------------------------------------------- admission and stop

  lemma ClientAdmission(cs: seq<ClientPc>, ss: seq<ServerPc>, p: StopPc, k: Counters, accepting: bool, c: nat)
    requires NonNegative(k) && MutexLaw(cs, ss, p, k) && AdmissionInv(cs, k, accepting) && c < |cs|
    ensures var admit := k.waiting < MESSAGES_IN_QUEUE && accepting;
            AdmissionInv(cs[c := ClientNext(cs[c], admit)], ClientCount(cs[c], k), accepting)
  {
    if CMutex(cs[c]) { ClientExcludes(cs, ss, p, k, c); }
  }

  lemma ClientStop(cs: seq<ClientPc>, ss: seq<ServerPc>, p: StopPc, k: Counters, accepting: bool, shutdown: bool, c: nat)
    requires AdmissionInv(cs, k, accepting) && StopInv(cs, ss, p, accepting, shutdown) && c < |cs|
    ensures var admit := k.waiting < MESSAGES_IN_QUEUE && accepting;
            StopInv(cs[c := ClientNext(cs[c], admit)], ss, p, accepting, shutdown)
  {
  }

  lemma ServerAdmission(cs: seq<ClientPc>, ss: seq<ServerPc>, p: StopPc, k: Counters, accepting: bool, i: nat)
    requires NonNegative(k) && MutexLaw(cs, ss, p, k) && AdmissionInv(cs, k, accepting) && i < |ss|
    ensures AdmissionInv(cs, ServerCount(ss[i], k), accepting)
  {
    if ss[i].DecWaiting? {
      CountMember(ss, i, SMutex);
      forall c | 0 <= c < |cs| ensures !cs[c].UnlockDenied? {
        if cs[c].UnlockDenied? { CountMember(cs, c, CMutex); }
      }
    }
  }

  lemma ServerStop(cs: seq<ClientPc>, ss: seq<ServerPc>, p: StopPc, k: Counters, accepting: bool, shutdown: bool, i: nat)
    requires Laws(cs, ss, p, k) && StopInv(cs, ss, p, accepting, shutdown) && i < |ss|
    requires ServerReady(ss[i], k, NoSlot) || !Parked(ss[i])
    ensures StopInv(cs, ss[i := ServerNext(ss[i], shutdown)], p, accepting, shutdown)
  {
    if Draining(p) && ss[i].CheckShutdown? {
      CountMember(ss, i, SClaimed);
      NoneAdmitted(cs);
    }
  }

  /** When nobody is admitted, nobody is in any of the regions past admission. */
  lemma NoneAdmitted(cs: seq<ClientPc>)
    requires forall c :: 0 <= c < |cs| ==> !Admitted(cs[c])
    ensures Count(cs, CQueued) == 0 && Count(cs, CCounted) == 0 && Count(cs, CMatched) == 0 && Count(cs, CPact) == 0
  {
    CountNone(cs, CQueued);
    CountNone(cs, CCounted);
    CountNone(cs, CMatched);
    CountNone(cs, CPact);
  }

  // ---------------------------------------------------------- slots

  /** A client step away from the slot table leaves the pairing alone. */
  lemma PairKept(cs: seq<ClientPc>, ds: seq<ClientData>, ts: seq<Slot>, c: nat, pc: ClientPc, d: ClientData)
    requires |ds| == |cs| && PairInv(cs, ds, ts) && c < |cs|
    requires Holding(pc) == Holding(cs[c]) && (Holding(pc) ==> d.server == ds[c].server)
    ensures PairInv(cs[c := pc], ds[c := d], ts)
  {
  }

  /** A change of one slot that keeps its partner leaves the pairing alone. */
  lemma PairTouched(cs: seq<ClientPc>, ds: seq<ClientData>, ts: seq<Slot>, i: nat, t: Slot)
    requires |ds| == |cs| && PairInv(cs, ds, ts) && i < |ts| && t.partner == ts[i].partner
    ensures PairInv(cs, ds, ts[i := t])
  {
  }

  /** Reading an announced slot number pairs the reader with that slot. */
  lemma PairMade(cs: seq<ClientPc>, ds: seq<ClientData>, ts: seq<Slot>, c: nat, d: ClientData, i: nat, t: Slot)
    requires |ds| == |cs| && PairInv(cs, ds, ts) && c < |cs| && i < |ts|
    requires !Holding(cs[c]) && ts[i].partner.Nobody? && d.server == i && t.partner == Bound(c)
    ensures PairInv(cs[c := AckPact], ds[c := d], ts[i := t])
  {
  }

  /** Taking the reply ends the pairing. */
  lemma PairEnded(cs: seq<ClientPc>, ds: seq<ClientData>, ts: seq<Slot>, c: nat, d: ClientData, t: Slot)
    requires |ds| == |cs| && PairInv(cs, ds, ts) && c < |cs| && Holding(cs[c]) && t.partner.Nobody?
    ensures PairInv(cs[c := Idle], ds[c := d], ts[ds[c].server := t])
  {
  }

  lemma ClientPair(s: State, c: nat, request: Message)
    requires Shape(s) && PactInv(s) && PairInv(s.pcs, s.data, s.slots) && ClientEnabled(s, c)
    ensures var s' := ClientStep(s, c, request); PairInv(s'.pcs, s'.data, s'.slots)
  {
    var s' := ClientStep(s, c, request);
    var i := SlotOf(s, c);
    if s.pcs[c].ReadSlot? {
      PairMade(s.pcs, s.data, s.slots, c, s'.data[c], i, s'.slots[i]);
    } else if s.pcs[c].PostRead? {
      PairEnded(s.pcs, s.data, s.slots, c, s'.data[c], s'.slots[i]);
    } else {
      PairKept(s.pcs, s.data, s.slots, c, s'.pcs[c], s'.data[c]);
      if i < |s.slots| { PairTouched(s'.pcs, s'.data, s.slots, i, s'.slots[i]); }
    }
  }

  /** One client step against the slot it holds, or is about to hold. */
  lemma HeldStep(p: ServerPc, t: Slot, c: nat, pc: ClientPc, d: ClientData, k: Counters, slot: nat, request: Message)
    requires BufferOk(pc, d) && ClientReady(pc, k, t)
    requires pc.ReadSlot? ==> p.AwaitAck? && FreeSlotOk(p, t)
    requires Holding(pc) ==> HeldSlotOk(p, t, pc, d)
    ensures var t', pc', d' := ClientTouch(pc, c, d, t), ClientNext(pc, true), ClientMemory(pc, d, request, slot, t.block);
            if pc.PostRead? then FreeSlotOk(p, t')
            else (Holding(pc) || pc.ReadSlot?) ==> HeldSlotOk(p, t', pc', d')
  {
  }

  /** A client step changes its own slot at most: every other slot has another partner. */
  lemma SlotsFrame(cs: seq<ClientPc>, ds: seq<ClientData>, ss: seq<ServerPc>, ts: seq<Slot>,
                   c: nat, pc: ClientPc, d: ClientData, i: nat, t: Slot)
    requires |ds| == |cs| && |ts| == |ss| && c < |cs| && i < |ts|
    requires PairInv(cs, ds, ts) && SlotsInv(cs, ds, ss, ts)
    requires PairInv(cs[c := pc], ds[c := d], ts[i := t])
    requires forall j :: 0 <= j < |ts| && j != i ==> ts[j].partner != Bound(c)
    requires t.partner.Bound? ==> t.partner.client < |cs|
    requires SlotOk(ss[i], t, cs[c := pc], ds[c := d])
    ensures SlotsInv(cs[c := pc], ds[c := d], ss, ts[i := t])
  {
  }

  lemma SlotsIdle(cs: seq<ClientPc>, ds: seq<ClientData>, ss: seq<ServerPc>, ts: seq<Slot>,
                  c: nat, pc: ClientPc, d: ClientData)
    requires |ds| == |cs| && |ts| == |ss| && c < |cs| && !Holding(cs[c])
    requires PairInv(cs, ds, ts) && SlotsInv(cs, ds, ss, ts) && PairInv(cs[c := pc], ds[c := d], ts)
    ensures SlotsInv(cs[c := pc], ds[c := d], ss, ts)
  {
  }

  lemma ClientSlots(s: State, c: nat, request: Message)
    requires DataInv(s) && ClientEnabled(s, c)
    ensures var s' := ClientStep(s, c, request);
            PairInv(s'.pcs, s'.data, s'.slots) && SlotsInv(s'.pcs, s'.data, s'.servers, s'.slots)
  {
    ClientPair(s, c, request);
    var s' := ClientStep(s, c, request);
    var i := SlotOf(s, c);
    if Holding(s.pcs[c]) || s.pcs[c].ReadSlot? {
      HeldStep(s.servers[i], s.slots[i], c, s.pcs[c], s.data[c], s.k, s.slot, request);
      SlotsFrame(s.pcs, s.data, s.servers, s.slots, c, s'.pcs[c], s'.data[c], i, s'.slots[i]);
    } else {
      assert s'.slots == s.slots;
      SlotsIdle(s.pcs, s.data, s.servers, s.slots, c, s'.pcs[c], s'.data[c]);
    }
  }

  lemma ClientBuffer(s: State, c: nat, request: Message)
    requires Shape(s) && BufferInv(s.pcs, s.data) && ClientEnabled(s, c)
    ensures var s' := ClientStep(s, c, request); BufferInv(s'.pcs, s'.data)
  {
  }

  /** No number is on the table and nobody is reading or acknowledging one. */
  lemma TableClear(s: State)
    requires Laws(s.pcs, s.servers, s.stop, s.k)
    requires forall i :: 0 <= i < |s.servers| ==> !s.servers[i].AwaitAck?
    ensures s.k.pactWritten == 0 && s.k.pactRead == 0
    ensures forall c :: 0 <= c < |s.pcs| ==> !CPact(s.pcs[c])
  {
    CountNone(s.servers, SAck);
    forall c | 0 <= c < |s.pcs| ensures !CPact(s.pcs[c]) {
      if CPact(s.pcs[c]) { CountMember(s.pcs, c, CPact); }
    }
  }

  /** The one client at the table. */
  lemma TableTaken(s: State, c: nat)
    requires Laws(s.pcs, s.servers, s.stop, s.k) && c < |s.pcs| && CPact(s.pcs[c])
    ensures s.k.pactWritten == 0 && s.k.pactRead == 0
    ensures forall d :: 0 <= d < |s.pcs| && CPact(s.pcs[d]) ==> d == c
  {
    PactExcludes(s.pcs, s.servers, s.stop, s.k);
    CountMember(s.pcs, c, CPact);
    forall d | 0 <= d < |s.pcs| && CPact(s.pcs[d]) ensures d == c {
      AtMostOne(s.pcs, c, d, CPact);
    }
  }

  lemma ClientPact(s: State, c: nat, request: Message)
    requires Laws(s.pcs, s.servers, s.stop, s.k) && DataInv(s) && ClientEnabled(s, c)
    ensures PactInv(ClientStep(s, c, request))
  {
    if CPact(s.pcs[c]) {
      TableTaken(s, c);
      ClientAtTable(s, c, request);
    } else {
      ClientElsewhere(s, c, request);
    }
  }

  lemma ClientAtTable(s: State, c: nat, request: Message)
    requires Shape(s) && PactInv(s) && PairInv(s.pcs, s.data, s.slots)
    requires SlotsInv(s.pcs, s.data, s.servers, s.slots)
    requires ClientEnabled(s, c) && CPact(s.pcs[c])
    requires s.k.pactWritten == 0 && s.k.pactRead == 0
    requires forall d :: 0 <= d < |s.pcs| && CPact(s.pcs[d]) ==> d == c
    ensures PactInv(ClientStep(s, c, request))
  {
    var s' := ClientStep(s, c, request);
    assert s'.servers == s.servers && s'.slot == s.slot;
  }

  lemma ClientElsewhere(s: State, c: nat, request: Message)
    requires Shape(s) && PactInv(s) && PairInv(s.pcs, s.data, s.slots)
    requires SlotsInv(s.pcs, s.data, s.servers, s.slots)
    requires ClientEnabled(s, c) && !CPact(s.pcs[c]) && NonNegative(s.k)
    ensures PactInv(ClientStep(s, c, request))
  {
    var s' := ClientStep(s, c, request);
    assert s'.servers == s.servers && s'.slot == s.slot;
    assert s'.k.pactRead == s.k.pactRead && s'.k.pactWritten <= s.k.pactWritten;
    assert s.slot < |s.slots| && s.servers[s.slot].AwaitAck? ==> s'.slots[s.slot].partner == s.slots[s.slot].partner;
    assert s'.pcs[c].ReadSlot? ==> s.k.pactWritten > 0;
  }

  // ---------------------------------------------------------- server data

  /** One server step against its own slot. */
  lemma ServerHeldStep(p: ServerPc, t: Slot, pc: ClientPc, d: ClientData, k: Counters, shutdown: bool, reply: Message)
    requires ServerReady(p, k, t)
    ensures FreeSlotOk(p, t) && !p.AwaitAck? ==> FreeSlotOk(ServerNext(p, shutdown), ServerTouch(p, t, reply))
    ensures HeldSlotOk(p, t, pc, d) && Holding(pc) && !(p.AwaitAck? && pc.AckPact?) ==>
              HeldSlotOk(ServerNext(p, shutdown), ServerTouch(p, t, reply), pc, d)
  {
  }

  /** A thread that finds the acknowledgement has a partner that is past acknowledging. */
  lemma AckPartner(s: State, i: nat)
    requires Laws(s.pcs, s.servers, s.stop, s.k) && DataInv(s) && ServerEnabled(s, i) && s.servers[i].AwaitAck?
    ensures i == s.slot && s.slots[i].partner.Bound? && !CPact(s.pcs[s.slots[i].partner.client])
  {
    TurnExcludes(s.servers, s.k, i);
    assert STurn(s.servers[s.slot]);
    if CPact(s.pcs[s.slots[i].partner.client]) { TableTaken(s, s.slots[i].partner.client); }
  }

  lemma ServerSlots(s: State, i: nat, handler: Handler)
    requires Laws(s.pcs, s.servers, s.stop, s.k) && DataInv(s) && ServerEnabled(s, i)
    ensures var s' := ServerStep(s, i, handler);
            PairInv(s'.pcs, s'.data, s'.slots) && SlotsInv(s'.pcs, s'.data, s'.servers, s'.slots)
  {
    var s' := ServerStep(s, i, handler);
    PairTouched(s.pcs, s.data, s.slots, i, s'.slots[i]);
    if s.servers[i].AwaitAck? { AckPartner(s, i); }
    var reply := handler(Requests(s.log), s.slots[i].block);
    if s.slots[i].partner.Bound? {
      var c := s.slots[i].partner.client;
      ServerHeldStep(s.servers[i], s.slots[i], s.pcs[c], s.data[c], s.k, s.shutdown, reply);
    } else {
      ServerHeldStep(s.servers[i], s.slots[i], Idle, ClientData([], [], 0, NoCall), s.k, s.shutdown, reply);
    }
  }

  /** The acknowledgement is taken and the table is clear again. */
  lemma ServerPactAck(s: State, i: nat, handler: Handler)
    requires Laws(s.pcs, s.servers, s.stop, s.k) && DataInv(s) && ServerEnabled(s, i) && s.servers[i].AwaitAck?
    ensures PactInv(ServerStep(s, i, handler))
  {
    TurnExcludes(s.servers, s.k, i);
    AckPartner(s, i);
    PactExcludes(s.pcs, s.servers, s.stop, s.k);
    AckTaken(s);
  }

  lemma ServerPactTurn(s: State, i: nat, handler: Handler)
    requires Laws(s.pcs, s.servers, s.stop, s.k) && DataInv(s) && ServerEnabled(s, i)
    requires STurn(s.servers[i]) && !s.servers[i].AwaitAck?
    ensures PactInv(ServerStep(s, i, handler))
  {
    TurnExcludes(s.servers, s.k, i);
    assert forall j :: 0 <= j < |s.servers| && s.servers[j].AwaitAck? ==> STurn(s.servers[j]);
    TableClear(s);
  }

  lemma ServerPact(s: State, i: nat, handler: Handler)
    requires Laws(s.pcs, s.servers, s.stop, s.k) && DataInv(s) && ServerEnabled(s, i)
    ensures PactInv(ServerStep(s, i, handler))
  {
    if s.servers[i].AwaitAck? {
      ServerPactAck(s, i, handler);
    } else if STurn(s.servers[i]) {
      ServerPactTurn(s, i, handler);
    }
  }

  /** While an acknowledgement is pending nobody is at the table. */
  lemma AckTaken(s: State)
    requires Laws(s.pcs, s.servers, s.stop, s.k) && s.k.pactRead > 0
    ensures s.k.pactWritten == 0 && forall c :: 0 <= c < |s.pcs| ==> !CPact(s.pcs[c])
  {
    PactExcludes(s.pcs, s.servers, s.stop, s.k);
    forall c | 0 <= c < |s.pcs| ensures !CPact(s.pcs[c]) {
      if CPact(s.pcs[c]) { TableTaken(s, c); }
    }
  }

  // ---------------------------------------------------------- the stopper

  /** The test under the mutex is exact: an idle reading means an idle system. */
  lemma IdleSystem(s: State)
    requires ControlInv(s) && DataInv(s) && StopMutex(s.stop) && !Draining(s.stop)
    requires s.k.waiting == 0 && s.k.busy == 0
    ensures forall i :: 0 <= i < |s.servers| ==> s.servers[i].PostServer? || s.servers[i].AwaitClient?
    ensures forall c :: 0 <= c < |s.pcs| ==> !Admitted(s.pcs[c])
  {
    StopExcludes(s.pcs, s.servers, s.stop, s.k);
    forall i | 0 <= i < |s.servers| ensures s.servers[i].PostServer? || s.servers[i].AwaitClient? {
      if SUncounted(s.servers[i]) { CountMember(s.servers, i, SUncounted); }
      if SBusy(s.servers[i]) { CountMember(s.servers, i, SBusy); }
    }
    CountNone(s.servers, SClaimed);
    CountNone(s.servers, SStopped);
    TableClear(s);
    forall c | 0 <= c < |s.pcs| ensures !Admitted(s.pcs[c]) {
      if CQueued(s.pcs[c]) { CountMember(s.pcs, c, CQueued); }
    }
  }

  /** Clearing the flag under the mutex cannot overtake an admission. */
  lemma StopAdmission(cs: seq<ClientPc>, ss: seq<ServerPc>, p: StopPc, k: Counters, accepting: bool)
    requires NonNegative(k) && MutexLaw(cs, ss, p, k) && AdmissionInv(cs, k, accepting)
    ensures AdmissionInv(cs, StopCount(p, k, |ss|), accepting && !p.StopAccepting?)
  {
    if p.StopAccepting? { StopExcludes(cs, ss, p, k); }
  }

  lemma StopFlags(cs: seq<ClientPc>, ss: seq<ServerPc>, p: StopPc, k: Counters, accepting: bool, shutdown: bool)
    requires StopInv(cs, ss, p, accepting, shutdown)
    requires p.PollCheck? && k.waiting == 0 && k.busy == 0 ==>
               (forall c :: 0 <= c < |cs| ==> !Admitted(cs[c])) && (forall i :: 0 <= i < |ss| ==> Parked(ss[i]))
    requires p.Join? && p.joined < |ss| ==> ss[p.joined].Stopped?
    ensures StopInv(cs, ss, StopNext(p, k, |ss|), accepting && !p.StopAccepting?, shutdown || p.SetShutdown?)
  {
  }

  // ---------------------------------------------------------- every step, every run

  lemma ClientStepInv(s: State, c: nat, request: Message)
    requires Inv(s) && ClientEnabled(s, c)
    ensures Inv(ClientStep(s, c, request))
  {
    ClientLaws(s.pcs, s.servers, s.stop, s.k, c, s.k.waiting < MESSAGES_IN_QUEUE && s.accepting, SlotAt(s, SlotOf(s, c)));
    ClientAdmission(s.pcs, s.servers, s.stop, s.k, s.accepting, c);
    ClientStop(s.pcs, s.servers, s.stop, s.k, s.accepting, s.shutdown, c);
    ClientSlots(s, c, request);
    ClientPact(s, c, request);
    ClientBuffer(s, c, request);
  }

  lemma ServerStepInv(s: State, i: nat, handler: Handler)
    requires Inv(s) && ServerEnabled(s, i)
    ensures Inv(ServerStep(s, i, handler))
  {
    ServerQueueLaws(s.pcs, s.servers, s.stop, s.k, i, s.shutdown, s.slots[i]);
    ServerMutexLaws(s.pcs, s.servers, s.stop, s.k, i, s.shutdown, s.slots[i]);
    ServerTurnLaws(s.pcs, s.servers, s.stop, s.k, i, s.shutdown, s.slots[i]);
    ServerAdmission(s.pcs, s.servers, s.stop, s.k, s.accepting, i);
    ServerStop(s.pcs, s.servers, s.stop, s.k, s.accepting, s.shutdown, i);
    ServerSlots(s, i, handler);
    ServerPact(s, i, handler);
  }

  lemma StopStepInv(s: State)
    requires Inv(s) && StopEnabled(s)
    ensures Inv(StopStep(s))
  {
    StopLaws(s);
    StopAdmission(s.pcs, s.servers, s.stop, s.k, s.accepting);
    if s.stop.PollCheck? && s.k.waiting == 0 && s.k.busy == 0 { IdleSystem(s); }
    StopFlags(s.pcs, s.servers, s.stop, s.k, s.accepting, s.shutdown);
  }

  lemma StepInv(s: State, m: Move, handler: Handler)
    requires Inv(s) && Enabled(s, m)
    ensures Inv(Apply(s, m, handler))
  {
    match m
    case ClientMove(c, request) => ClientStepInv(s, c, request);
    case ServerMove(i) => ServerStepInv(s, i, handler);
    case StopMove => StopStepInv(s);
  }

  /** Safety over whole runs: the invariant holds in every state of every interleaving. */
  lemma {:induction false} RunInv(states: seq<State>, moves: seq<Move>, handler: Handler, n: nat)
    requires Run(states, moves, handler) && n < |states|
    ensures Inv(states[n])
  {
    if n == 0 {
      InitInv(states[0]);
    } else {
      RunInv(states, moves, handler, n - 1);
      StepInv(states[n - 1], moves[n - 1], handler);
    }
  }
}
