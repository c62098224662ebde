/**
 The shared-memory rendezvous between any number of clients and any number of
 server threads (SSMMsg). Every semaphore operation and every access to a shared
 cell is one atomic step, so a run is an arbitrary interleaving of these steps.

 A step is described by what it does to control (the program counter and the
 counters) and by what it does to data (the client's buffer and one slot).
 Server thread i serves slot i: thread indices are distinct.
 */
module SsmMsg {
  import opened Tally

  type Message = seq<bv8>

  /** The user activity: its answer may depend on every request served before. */
  type Handler = (seq<Message>, Message) -> Message

  const MESSAGES_IN_QUEUE := 100

  // ------------------------------------------------------------------ control

  /** Where a client is inside send_msg; each name is the step it takes next. */
  datatype ClientPc =
    | Idle | LockEntry | CheckAdmission | IncWaiting | PostClient | UnlockEntry
    | AwaitServer | AwaitPact | ReadSlot | AckPact
    | WriteBlock | PostWritten | AwaitProcessed | ReadBlock | PostRead
    | UnlockDenied

  /** Where a server thread is inside its loop. */
  datatype ServerPc =
    | PostServer | AwaitClient | CheckShutdown
    | LockBusy | DecWaiting | IncBusy | UnlockBusy
    | AwaitTurn | WriteSlot | PostPact | AwaitAck | ReleaseTurn
    | AwaitWritten | Process | PostProcessed | AwaitRead
    | LockIdle | DecBusy | UnlockIdle
    | Stopped

  /** Where the thread that runs stop_serve_clients is. */
  datatype StopPc =
    | NotStopping | StopLock | StopAccepting | StopUnlock
    | PollLock | PollCheck | PollUnlock
    | DrainUnlock | SetShutdown | PostTokens(posted: nat) | Join(joined: nat) | StopDone

  /** The six named semaphores and the two shared counters. */
  datatype Counters = Counters(
    clients: int, servers: int, mutex: int,
    pact: int, pactWritten: int, pactRead: int,
    waiting: int, busy: int)

  function ClientNext(pc: ClientPc, admit: bool): ClientPc {
    match pc
    case Idle => LockEntry
    case LockEntry => CheckAdmission
    case CheckAdmission => if admit then IncWaiting else UnlockDenied
    case IncWaiting => PostClient
    case PostClient => UnlockEntry
    case UnlockEntry => AwaitServer
    case AwaitServer => AwaitPact
    case AwaitPact => ReadSlot
    case ReadSlot => AckPact
    case AckPact => WriteBlock
    case WriteBlock => PostWritten
    case PostWritten => AwaitProcessed
    case AwaitProcessed => ReadBlock
    case ReadBlock => PostRead
    case PostRead => Idle
    case UnlockDenied => Idle
  }

  function ClientCount(pc: ClientPc, k: Counters): Counters {
    match pc
    case LockEntry => k.(mutex := k.mutex - 1)
    case IncWaiting => k.(waiting := k.waiting + 1)
    case PostClient => k.(clients := k.clients + 1)
    case UnlockEntry => k.(mutex := k.mutex + 1)
    case AwaitServer => k.(servers := k.servers - 1)
    case AwaitPact => k.(pactWritten := k.pactWritten - 1)
    case AckPact => k.(pactRead := k.pactRead + 1)
    case UnlockDenied => k.(mutex := k.mutex + 1)
    case _ => k
  }

  function ServerNext(pc: ServerPc, shutdown: bool): ServerPc {
    match pc
    case PostServer => AwaitClient
    case AwaitClient => CheckShutdown
    case CheckShutdown => if shutdown then Stopped else LockBusy
    case LockBusy => DecWaiting
    case DecWaiting => IncBusy
    case IncBusy => UnlockBusy
    case UnlockBusy => AwaitTurn
    case AwaitTurn => WriteSlot
    case WriteSlot => PostPact
    case PostPact => AwaitAck
    case AwaitAck => ReleaseTurn
    case ReleaseTurn => AwaitWritten
    case AwaitWritten => Process
    case Process => PostProcessed
    case PostProcessed => AwaitRead
    case AwaitRead => LockIdle
    case LockIdle => DecBusy
    case DecBusy => UnlockIdle
    case UnlockIdle => PostServer
    case Stopped => Stopped
  }

  function ServerCount(pc: ServerPc, k: Counters): Counters {
    match pc
    case PostServer => k.(servers := k.servers + 1)
    case AwaitClient => k.(clients := k.clients - 1)
    case LockBusy => k.(mutex := k.mutex - 1)
    case DecWaiting => k.(waiting := k.waiting - 1)
    case IncBusy => k.(busy := k.busy + 1)
    case UnlockBusy => k.(mutex := k.mutex + 1)
    case AwaitTurn => k.(pact := k.pact - 1)
    case PostPact => k.(pactWritten := k.pactWritten + 1)
    case AwaitAck => k.(pactRead := k.pactRead - 1)
    case ReleaseTurn => k.(pact := k.pact + 1)
    case LockIdle => k.(mutex := k.mutex - 1)
    case DecBusy => k.(busy := k.busy - 1)
    case UnlockIdle => k.(mutex := k.mutex + 1)
    case _ => k
  }

  /** `servers` is the number of server threads, one token each. */
  function StopNext(pc: StopPc, k: Counters, servers: nat): StopPc {
    match pc
    case NotStopping => StopLock
    case StopLock => StopAccepting
    case StopAccepting => StopUnlock
    case StopUnlock => PollLock
    case PollLock => PollCheck
    case PollCheck => if k.waiting == 0 && k.busy == 0 then DrainUnlock else PollUnlock
    case PollUnlock => PollLock
    case DrainUnlock => SetShutdown
    case SetShutdown => PostTokens(0)
    case PostTokens(n) => if n < servers then PostTokens(n + 1) else Join(0)
    case Join(n) => if n < servers then Join(n + 1) else StopDone
    case StopDone => StopDone
  }

  function StopCount(pc: StopPc, k: Counters, servers: nat): Counters {
    match pc
    case StopLock => k.(mutex := k.mutex - 1)
    case StopUnlock => k.(mutex := k.mutex + 1)
    case PollLock => k.(mutex := k.mutex - 1)
    case PollUnlock => k.(mutex := k.mutex + 1)
    case DrainUnlock => k.(mutex := k.mutex + 1)
    case PostTokens(n) => if n < servers then k.(clients := k.clients + 1) else k
    case _ => k
  }

  // ------------------------------------------------------------------ data

  /** What the last call of send_msg gave its caller. */
  datatype Outcome = NoCall | Denied | Answered(reply: Message)

  /** `request` is what the caller passed in; `buf` is the buffer, overwritten by the reply. */
  datatype ClientData = ClientData(request: Message, buf: Message, server: nat, outcome: Outcome)

  /** History: the client that has read this slot's number and not yet released the slot. */
  datatype Partner = Nobody | Bound(client: nat)

  /** The three semaphores of a slot and its block of shared memory. */
  datatype Slot = Slot(written: int, processed: int, read: int, block: Message, partner: Partner)

  /** The client has read its slot number and not yet released the slot. */
  predicate Holding(pc: ClientPc) {
    pc.AckPact? || pc.WriteBlock? || pc.PostWritten? || pc.AwaitProcessed? || pc.ReadBlock? || pc.PostRead?
  }

  /** The client's own memory after a step; `slot` and `block` are what it may read. */
  function ClientMemory(pc: ClientPc, d: ClientData, request: Message, slot: nat, block: Message): ClientData {
    match pc
    case Idle => ClientData(request, request, 0, d.outcome)
    case ReadSlot => d.(server := slot)
    case ReadBlock => d.(buf := block)
    case PostRead => d.(outcome := Answered(d.buf))
    case UnlockDenied => d.(outcome := Denied)
    case _ => d
  }

  /** What a step of client c does to the slot it touches. */
  function ClientTouch(pc: ClientPc, c: nat, d: ClientData, t: Slot): Slot {
    match pc
    case ReadSlot => t.(partner := Bound(c))
    case WriteBlock => t.(block := d.buf)
    case PostWritten => t.(written := t.written + 1)
    case AwaitProcessed => t.(processed := t.processed - 1)
    case PostRead => t.(read := t.read + 1, partner := Nobody)
    case _ => t
  }

  /** What a step of a server thread does to its own slot. */
  function ServerTouch(pc: ServerPc, t: Slot, reply: Message): Slot {
    match pc
    case AwaitWritten => t.(written := t.written - 1)
    case Process => t.(block := reply)
    case PostProcessed => t.(processed := t.processed + 1)
    case AwaitRead => t.(read := t.read - 1)
    case _ => t
  }

  // ------------------------------------------------------------------ system

  datatype Call = Call(request: Message, reply: Message)

  datatype State = State(
    pcs: seq<ClientPc>, data: seq<ClientData>,
    servers: seq<ServerPc>, slots: seq<Slot>,
    stop: StopPc, k: Counters,
    slot: nat, accepting: bool, shutdown: bool,
    log: seq<Call>)            // history: the calls of the handler so far, in order

  function Requests(log: seq<Call>): seq<Message> {
    seq(|log|, i requires 0 <= i < |log| => log[i].request)
  }

  ghost predicate Init(s: State) {
    && |s.data| == |s.pcs| && |s.slots| == |s.servers|
    && (forall c :: 0 <= c < |s.pcs| ==> s.pcs[c] == Idle)
    && (forall c :: 0 <= c < |s.data| ==> s.data[c].outcome == NoCall)
    && (forall i :: 0 <= i < |s.servers| ==> s.servers[i] == PostServer)
    && (forall i :: 0 <= i < |s.slots| ==>
          s.slots[i].written == s.slots[i].processed == s.slots[i].read == 0 && s.slots[i].partner == Nobody)
    && s.stop == NotStopping && s.k == Counters(0, 0, 1, 1, 0, 0, 0, 0)
    && s.slot == 0 && s.accepting && !s.shutdown && s.log == []
  }

  ghost predicate Shape(s: State) {
    |s.data| == |s.pcs| && |s.slots| == |s.servers|
  }

  /** The slot client c works on: the one on the table while it reads it, then its own. */
  function SlotOf(s: State, c: nat): nat
    requires c < |s.pcs| == |s.data|
  {
    if s.pcs[c] == ReadSlot then s.slot else s.data[c].server
  }

  predicate ClientReady(pc: ClientPc, k: Counters, t: Slot) {
    match pc
    case LockEntry => k.mutex > 0
    case AwaitServer => k.servers > 0
    case AwaitPact => k.pactWritten > 0
    case AwaitProcessed => t.processed > 0
    case _ => true
  }

  const NoSlot := Slot(0, 0, 0, [], Nobody)

  function SlotAt(s: State, i: nat): Slot {
    if i < |s.slots| then s.slots[i] else NoSlot
  }

  ghost predicate ClientEnabled(s: State, c: nat) {
    Shape(s) && c < |s.pcs| && ClientReady(s.pcs[c], s.k, SlotAt(s, SlotOf(s, c)))
  }

  /** One step of send_msg by client c; an idle client starts a call with `request`. */
  ghost function ClientStep(s: State, c: nat, request: Message): State
    requires ClientEnabled(s, c)
  {
    var pc, d, i := s.pcs[c], s.data[c], SlotOf(s, c);
    s.(pcs := s.pcs[c := ClientNext(pc, s.k.waiting < MESSAGES_IN_QUEUE && s.accepting)],
       k := ClientCount(pc, s.k),
       data := s.data[c := ClientMemory(pc, d, request, s.slot, SlotAt(s, i).block)],
       slots := if i < |s.slots| then s.slots[i := ClientTouch(pc, c, d, s.slots[i])] else s.slots)
  }

  predicate ServerReady(pc: ServerPc, k: Counters, t: Slot) {
    match pc
    case AwaitClient => k.clients > 0
    case LockBusy => k.mutex > 0
    case AwaitTurn => k.pact > 0
    case AwaitAck => k.pactRead > 0
    case AwaitWritten => t.written > 0
    case AwaitRead => t.read > 0
    case LockIdle => k.mutex > 0
    case Stopped => false
    case _ => true
  }

  ghost predicate ServerEnabled(s: State, i: nat) {
    Shape(s) && i < |s.servers| && ServerReady(s.servers[i], s.k, s.slots[i])
  }

  /** One step of the loop of server thread i. */
  ghost function ServerStep(s: State, i: nat, handler: Handler): State
    requires ServerEnabled(s, i)
  {
    var pc, t := s.servers[i], s.slots[i];
    var reply := handler(Requests(s.log), t.block);
    s.(servers := s.servers[i := ServerNext(pc, s.shutdown)],
       k := ServerCount(pc, s.k),
       slots := s.slots[i := ServerTouch(pc, t, reply)],
       slot := if pc == WriteSlot then i else s.slot,
       log := if pc == Process then s.log + [Call(t.block, reply)] else s.log)
  }

  ghost predicate StopEnabled(s: State) {
    match s.stop
    case StopLock => s.k.mutex > 0
    case PollLock => s.k.mutex > 0
    case Join(n) => n < |s.servers| ==> s.servers[n] == Stopped
    case StopDone => false
    case _ => true
  }

  /** One step of stop_serve_clients. */
  ghost function StopStep(s: State): State
    requires StopEnabled(s)
  {
    s.(stop := StopNext(s.stop, s.k, |s.servers|),
       k := StopCount(s.stop, s.k, |s.servers|),
       accepting := s.accepting && s.stop != StopAccepting,
       shutdown := s.shutdown || s.stop == SetShutdown)
  }

  datatype Move = ClientMove(client: nat, request: Message) | ServerMove(server: nat) | StopMove

  ghost predicate Enabled(s: State, m: Move) {
    match m
    case ClientMove(c, _) => ClientEnabled(s, c)
    case ServerMove(i) => ServerEnabled(s, i)
    case StopMove => StopEnabled(s)
  }

  ghost function Apply(s: State, m: Move, handler: Handler): State
    requires Enabled(s, m)
  {
    match m
    case ClientMove(c, request) => ClientStep(s, c, request)
    case ServerMove(i) => ServerStep(s, i, handler)
    case StopMove => StopStep(s)
  }

  /** A run: consecutive states are related by an enabled move. */
  ghost predicate Run(states: seq<State>, moves: seq<Move>, handler: Handler) {
    && |states| == |moves| + 1
    && Init(states[0])
    && forall n :: 0 <= n < |moves| ==>
         Enabled(states[n], moves[n]) && states[n + 1] == Apply(states[n], moves[n], handler)
  }

  // ------------------------------------------------------------------ regions

  // Each region below names a stretch of program counters; the conservation laws
  // are equations between their populations and the counters.

  predicate CMutex(c: ClientPc) {
    c.CheckAdmission? || c.IncWaiting? || c.PostClient? || c.UnlockEntry? || c.UnlockDenied?
  }
  predicate CCounted(c: ClientPc) { c.PostClient? }
  predicate CQueued(c: ClientPc) { c.UnlockEntry? || c.AwaitServer? || c.AwaitPact? }
  predicate CMatched(c: ClientPc) { c.AwaitPact? }
  predicate CPact(c: ClientPc) { c.ReadSlot? || c.AckPact? }
  /** Admitted and unfinished. */
  predicate Admitted(c: ClientPc) {
    !(c.Idle? || c.LockEntry? || c.CheckAdmission? || c.UnlockDenied?)
  }

  predicate SMutex(p: ServerPc) { p.DecWaiting? || p.IncBusy? || p.UnlockBusy? || p.DecBusy? || p.UnlockIdle? }
  predicate SUncounted(p: ServerPc) { p.CheckShutdown? || p.LockBusy? || p.DecWaiting? }
  predicate SClaimed(p: ServerPc) {
    SUncounted(p) || p.IncBusy? || p.UnlockBusy? || p.AwaitTurn? || p.WriteSlot? || p.PostPact?
  }
  predicate SOffered(p: ServerPc) { p.AwaitClient? || SClaimed(p) }
  predicate STurn(p: ServerPc) { p.WriteSlot? || p.PostPact? || p.AwaitAck? || p.ReleaseTurn? }
  predicate SAck(p: ServerPc) { p.AwaitAck? }
  predicate SBusy(p: ServerPc) {
    p.UnlockBusy? || p.AwaitTurn? || p.WriteSlot? || p.PostPact? || p.AwaitAck? || p.ReleaseTurn? ||
    p.AwaitWritten? || p.Process? || p.PostProcessed? || p.AwaitRead? || p.LockIdle? || p.DecBusy?
  }
  predicate SStopped(p: ServerPc) { p.Stopped? }

  predicate StopMutex(p: StopPc) {
    p.StopAccepting? || p.StopUnlock? || p.PollCheck? || p.PollUnlock? || p.DrainUnlock?
  }
  /** The stopper has seen an idle system and is taking the threads down. */
  predicate Draining(p: StopPc) {
    p.DrainUnlock? || p.SetShutdown? || p.PostTokens? || p.Join? || p.StopDone?
  }
  /** Shutdown tokens put on sem_clients so far. */
  function Tokens(p: StopPc, servers: nat): nat {
    match p
    case PostTokens(n) => n
    case Join(_) => servers
    case StopDone => servers
    case _ => 0
  }

  // ------------------------------------------------------------------ invariant

  /** At most one party is inside the mutex. */
  ghost predicate MutexLaw(cs: seq<ClientPc>, ss: seq<ServerPc>, p: StopPc, k: Counters) {
    k.mutex + Count(cs, CMutex) + Count(ss, SMutex) + Bit(StopMutex(p)) == 1
  }
  /** Every token taken from sem_clients is a queued client's or a shutdown token. */
  ghost predicate QueueLaw(cs: seq<ClientPc>, ss: seq<ServerPc>, p: StopPc, k: Counters) {
    Count(cs, CQueued) + Tokens(p, |ss|) == k.clients + Count(ss, SClaimed) + k.pactWritten + Count(ss, SStopped)
  }
  ghost predicate WaitingLaw(cs: seq<ClientPc>, ss: seq<ServerPc>, p: StopPc, k: Counters) {
    k.waiting + Tokens(p, |ss|) == Count(cs, CCounted) + k.clients + Count(ss, SUncounted) + Count(ss, SStopped)
  }
  ghost predicate OfferLaw(cs: seq<ClientPc>, ss: seq<ServerPc>, k: Counters) {
    k.servers + Count(cs, CMatched) == Count(ss, SOffered) + k.pactWritten + Count(ss, SStopped)
  }
  /** At most one thread is announcing its slot. */
  ghost predicate TurnLaw(ss: seq<ServerPc>, k: Counters) {
    k.pact + Count(ss, STurn) == 1
  }
  ghost predicate PactLaw(cs: seq<ClientPc>, ss: seq<ServerPc>, k: Counters) {
    Count(ss, SAck) == k.pactWritten + Count(cs, CPact) + k.pactRead
  }
  ghost predicate BusyLaw(ss: seq<ServerPc>, k: Counters) {
    k.busy == Count(ss, SBusy)
  }
  predicate NonNegative(k: Counters) {
    k.clients >= 0 && k.servers >= 0 && k.mutex >= 0 && k.pact >= 0 && k.pactWritten >= 0 && k.pactRead >= 0
  }

  ghost predicate Laws(cs: seq<ClientPc>, ss: seq<ServerPc>, p: StopPc, k: Counters) {
    && NonNegative(k)
    && MutexLaw(cs, ss, p, k) && QueueLaw(cs, ss, p, k) && WaitingLaw(cs, ss, p, k)
    && OfferLaw(cs, ss, k) && TurnLaw(ss, k) && PactLaw(cs, ss, k) && BusyLaw(ss, k)
  }

  /** The outcome of the admission test still stands when it is acted upon. */
  ghost predicate AdmissionInv(cs: seq<ClientPc>, k: Counters, accepting: bool) {
    && k.waiting <= MESSAGES_IN_QUEUE
    && (forall c :: 0 <= c < |cs| && cs[c].IncWaiting? ==> k.waiting < MESSAGES_IN_QUEUE && accepting)
    && (forall c :: 0 <= c < |cs| && cs[c].UnlockDenied? ==> k.waiting == MESSAGES_IN_QUEUE || !accepting)
  }

  predicate Parked(p: ServerPc) {
    p.PostServer? || p.AwaitClient? || p.CheckShutdown? || p.Stopped?
  }

  /** The flags follow the stopper, and once it drains no client is admitted and no thread is busy. */
  ghost predicate StopInv(cs: seq<ClientPc>, ss: seq<ServerPc>, p: StopPc, accepting: bool, shutdown: bool) {
    && (accepting <==> p.NotStopping? || p.StopLock? || p.StopAccepting?)
    && (shutdown <==> p.PostTokens? || p.Join? || p.StopDone?)
    && (p.PostTokens? ==> p.posted <= |ss|)
    && (Draining(p) ==> forall c :: 0 <= c < |cs| ==> !Admitted(cs[c]))
    && (Draining(p) ==> forall i :: 0 <= i < |ss| ==> Parked(ss[i]))
    && (!shutdown ==> forall i :: 0 <= i < |ss| ==> !ss[i].Stopped?)
    && (p.Join? ==> p.joined <= |ss| && forall i :: 0 <= i < p.joined ==> ss[i].Stopped?)
    && (p.StopDone? ==> forall i :: 0 <= i < |ss| ==> ss[i].Stopped?)
  }

  /** Slot i is on the table: announced, and read by nobody yet. */
  ghost predicate Announced(s: State)
    requires Shape(s)
  {
    s.slot < |s.servers| && s.servers[s.slot].AwaitAck? && s.slots[s.slot].partner.Nobody?
  }

  /** The slot number on the table belongs to the thread whose turn it is. */
  ghost predicate PactInv(s: State)
    requires Shape(s)
  {
    && (forall i :: 0 <= i < |s.servers| && s.servers[i].PostPact? ==> s.slot == i)
    && (s.k.pactWritten > 0 ==> Announced(s))
    && (forall c :: 0 <= c < |s.pcs| && s.pcs[c].ReadSlot? ==> Announced(s))
    && (s.k.pactRead > 0 ==>
          s.slot < |s.servers| && s.servers[s.slot].AwaitAck? && s.slots[s.slot].partner.Bound?)
    && (forall c :: 0 <= c < |s.pcs| && s.pcs[c].AckPact? ==> s.data[c].server == s.slot)
  }

  /** Partners and held slots are the same pairing. */
  ghost predicate PairInv(cs: seq<ClientPc>, ds: seq<ClientData>, ts: seq<Slot>)
    requires |ds| == |cs|
  {
    && (forall c :: 0 <= c < |cs| && Holding(cs[c]) ==> ds[c].server < |ts| && ts[ds[c].server].partner == Bound(c))
    && (forall i :: 0 <= i < |ts| && ts[i].partner.Bound? ==>
          var c := ts[i].partner.client; c < |cs| && Holding(cs[c]) && ds[c].server == i)
  }

  /**
   A slot without a partner: all its semaphores are down, except that the
   last client may have just signalled that it took the reply.
   */
  predicate FreeSlotOk(p: ServerPc, t: Slot) {
    && t.written == 0 && t.processed == 0
    && !(p.ReleaseTurn? || p.AwaitWritten? || p.Process? || p.PostProcessed?)
    && t.read == Bit(p.AwaitRead?)
  }

  /** A slot with a partner at pc with data d: who has written what so far. */
  predicate HeldSlotOk(p: ServerPc, t: Slot, pc: ClientPc, d: ClientData) {
    && t.read == 0
    && match p
       case AwaitAck => Delivering(t, pc, d)
       case ReleaseTurn => Delivering(t, pc, d) && !pc.AckPact?
       case AwaitWritten => Delivering(t, pc, d) && !pc.AckPact?
       case Process => t.written == 0 && t.processed == 0 && pc.AwaitProcessed? && t.block == d.request
       case PostProcessed => t.written == 0 && t.processed == 0 && pc.AwaitProcessed?
       case AwaitRead =>
         t.written == 0 && t.processed == Bit(pc.AwaitProcessed?) &&
         (pc.AwaitProcessed? || pc.ReadBlock? || pc.PostRead?)
       case _ => false
  }

  predicate Delivering(t: Slot, pc: ClientPc, d: ClientData) {
    && t.processed == 0
    && t.written == Bit(pc.AwaitProcessed?)
    && (pc.AckPact? || pc.WriteBlock? || pc.PostWritten? || pc.AwaitProcessed?)
    && (pc.PostWritten? || pc.AwaitProcessed? ==> t.block == d.request)
  }

  ghost predicate SlotOk(p: ServerPc, t: Slot, cs: seq<ClientPc>, ds: seq<ClientData>)
    requires |ds| == |cs| && (t.partner.Bound? ==> t.partner.client < |cs|)
  {
    if t.partner.Nobody? then FreeSlotOk(p, t)
    else HeldSlotOk(p, t, cs[t.partner.client], ds[t.partner.client])
  }

  ghost predicate SlotsInv(cs: seq<ClientPc>, ds: seq<ClientData>, ss: seq<ServerPc>, ts: seq<Slot>)
    requires |ds| == |cs| && |ts| == |ss| && PairInv(cs, ds, ts)
  {
    forall i :: 0 <= i < |ts| ==> SlotOk(ss[i], ts[i], cs, ds)
  }

  /** Until it reads the reply, a client's buffer is its request. */
  predicate BufferOk(pc: ClientPc, d: ClientData) {
    pc.Idle? || pc.PostRead? || pc.UnlockDenied? || d.buf == d.request
  }

  ghost predicate BufferInv(cs: seq<ClientPc>, ds: seq<ClientData>)
    requires |ds| == |cs|
  {
    forall c :: 0 <= c < |cs| ==> BufferOk(cs[c], ds[c])
  }

  ghost predicate DataInv(s: State) {
    && Shape(s) && PactInv(s) && PairInv(s.pcs, s.data, s.slots)
    && SlotsInv(s.pcs, s.data, s.servers, s.slots) && BufferInv(s.pcs, s.data)
  }

  ghost predicate ControlInv(s: State) {
    && Laws(s.pcs, s.servers, s.stop, s.k) && AdmissionInv(s.pcs, s.k, s.accepting)
    && StopInv(s.pcs, s.servers, s.stop, s.accepting, s.shutdown)
  }

  ghost predicate Inv(s: State) {
    ControlInv(s) && DataInv(s)
  }
}
