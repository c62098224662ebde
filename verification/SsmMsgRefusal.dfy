/**
 Which calls SSMMsg refuses: only those that find the queue full or the server closed. With
 no more clients than places in the queue, and nobody stopping the server, every call is
 answered.
 */
module SsmMsgRefusal {
  import opened Tally
  import opened SsmMsg
  import opened SsmMsgInvariant
  import opened SsmMsgService
  import opened SsmMsgLiveness

  /** The admission test of a call inside the mutex admits it if and only if there is room and
      the server accepts messages. */
  lemma AdmittedIff(states: seq<State>, moves: seq<Move>, handler: Handler, n: nat)
    requires Run(states, moves, handler) && n < |moves| && moves[n].ClientMove?
    requires states[n].pcs[moves[n].client] == CheckAdmission
    ensures var s, p := states[n], states[n + 1].pcs[moves[n].client];
      && (Admitted(p) <==> s.k.waiting < MESSAGES_IN_QUEUE && s.accepting)
      && (p == UnlockDenied <==> !(s.k.waiting < MESSAGES_IN_QUEUE && s.accepting))
  {
  }

  /** A call that comes back was answered, or refused; and it was refused only if, at the
      moment it leaves the mutex, the queue is full or the server is closed. */
  lemma RefusedForCause(states: seq<State>, moves: seq<Move>, handler: Handler, n: nat)
    requires Run(states, moves, handler) && n < |moves| && moves[n].ClientMove?
    requires var c := moves[n].client; !states[n].pcs[c].Idle? && states[n + 1].pcs[c].Idle?
    ensures var s, c := states[n], moves[n].client;
      && c < |states[n + 1].data|
      && (states[n + 1].data[c].outcome == Denied ==>
            CMutex(s.pcs[c]) && (s.k.waiting == MESSAGES_IN_QUEUE || !s.accepting))
      && (states[n + 1].data[c].outcome != Denied ==> states[n + 1].data[c].outcome.Answered?)
  {
    RunInv(states, moves, handler, n);
  }

  /** An outcome is Denied only by a call that was refused for cause. */
  lemma DeniedByReturn(states: seq<State>, moves: seq<Move>, handler: Handler, n: nat, c: nat)
    requires Run(states, moves, handler) && n < |moves| && c < |states[n].data| && c < |states[n + 1].data|
    requires states[n].data[c].outcome != Denied && states[n + 1].data[c].outcome == Denied
    ensures moves[n].ClientMove? && moves[n].client == c && c < |states[n].pcs| && states[n].pcs[c] == UnlockDenied
    ensures states[n].k.waiting == MESSAGES_IN_QUEUE || !states[n].accepting
  {
    RunInv(states, moves, handler, n);
  }

  // ---------------------------------------------------------- when nobody is refused

  /** Places in the queue are held by clients that are past the test. */
  lemma {:induction false} OthersWait(cs: seq<ClientPc>, c: nat)
    requires c < |cs| && !Admitted(cs[c])
    ensures Count(cs, CCounted) + Count(cs, CQueued) < |cs|
  {
    if c == 0 {
      InQueue(cs[1..]);
    } else {
      OthersWait(cs[1..], c - 1);
    }
  }

  lemma {:induction false} InQueue(cs: seq<ClientPc>)
    ensures Count(cs, CCounted) + Count(cs, CQueued) <= |cs|
  {
    if cs != [] {
      InQueue(cs[1..]);
    }
  }

  lemma {:induction false} UncountedClaimed(ss: seq<ServerPc>)
    ensures Count(ss, SUncounted) <= Count(ss, SClaimed)
  {
    if ss != [] {
      UncountedClaimed(ss[1..]);
    }
  }

  /** A client that does the test finds fewer waiting than there are clients. */
  lemma RoomLeft(s: State, c: nat)
    requires Inv(s) && c < |s.pcs| && !Admitted(s.pcs[c])
    ensures s.k.waiting < |s.pcs|
  {
    OthersWait(s.pcs, c);
    UncountedClaimed(s.servers);
  }

  ghost predicate Unstopped(s: State) {
    s.stop == NotStopping && s.accepting
  }

  ghost predicate NobodyDenied(s: State) {
    && (forall c :: 0 <= c < |s.pcs| ==> s.pcs[c] != UnlockDenied)
    && (forall c :: 0 <= c < |s.data| ==> s.data[c].outcome != Denied)
  }

  lemma TestPassed(s: State, c: nat)
    requires Inv(s) && Unstopped(s) && |s.pcs| <= MESSAGES_IN_QUEUE && c < |s.pcs|
    ensures s.pcs[c] == CheckAdmission ==> s.k.waiting < MESSAGES_IN_QUEUE && s.accepting
  {
    if s.pcs[c] == CheckAdmission {
      RoomLeft(s, c);
    }
  }

  lemma ClientAdmits(s: State, c: nat, request: Message)
    requires ClientEnabled(s, c) && NobodyDenied(s)
    requires s.pcs[c] == CheckAdmission ==> s.k.waiting < MESSAGES_IN_QUEUE && s.accepting
    ensures NobodyDenied(ClientStep(s, c, request))
  {
  }

  lemma StepAdmits(s: State, m: Move, handler: Handler)
    requires Inv(s) && Enabled(s, m) && Unstopped(s) && |s.pcs| <= MESSAGES_IN_QUEUE && NobodyDenied(s)
    ensures NobodyDenied(Apply(s, m, handler))
  {
    if m.ClientMove? {
      TestPassed(s, m.client);
      ClientAdmits(s, m.client, m.request);
    }
  }

  lemma StepUnstopped(s: State, m: Move, handler: Handler)
    requires Enabled(s, m) && Apply(s, m, handler).stop == NotStopping && (s.stop == NotStopping ==> s.accepting)
    ensures Unstopped(s) && Unstopped(Apply(s, m, handler)) && |Apply(s, m, handler).pcs| == |s.pcs|
  {
  }

  /** With at most as many clients as places in the queue, as long as nobody stops the server,
      no call is refused. */
  lemma {:induction false} NoneRefused(states: seq<State>, moves: seq<Move>, handler: Handler, n: nat)
    requires Run(states, moves, handler) && n < |states|
    requires |states[n].pcs| <= MESSAGES_IN_QUEUE && states[n].stop == NotStopping
    ensures Unstopped(states[n]) && NobodyDenied(states[n])
  {
    if n > 0 {
      RunInv(states, moves, handler, n - 1);
      StepUnstopped(states[n - 1], moves[n - 1], handler);
      NoneRefused(states, moves, handler, n - 1);
      StepAdmits(states[n - 1], moves[n - 1], handler);
    }
  }

  /** Then every call that comes back has its answer, and when clients and threads cannot
      move any more every call has come back. */
  lemma AllAnswered(states: seq<State>, moves: seq<Move>, handler: Handler, n: nat)
    requires Run(states, moves, handler) && n < |states|
    requires |states[n].pcs| <= MESSAGES_IN_QUEUE && states[n].stop == NotStopping
    ensures n > 0 && moves[n - 1].ClientMove? ==>
      var c := moves[n - 1].client;
      c < |states[n - 1].pcs| && c < |states[n].pcs| && c < |states[n].data| &&
      (!states[n - 1].pcs[c].Idle? && states[n].pcs[c].Idle? ==> states[n].data[c].outcome.Answered?)
    ensures |states[n].servers| > 0 && (forall m :: !Advances(states[n], m)) ==>
      forall c :: 0 <= c < |states[n].pcs| ==> states[n].pcs[c] == Idle
  {
    NoneRefused(states, moves, handler, n);
    RunInv(states, moves, handler, n);
    if n > 0 && moves[n - 1].ClientMove? {
      var c := moves[n - 1].client;
      if !states[n - 1].pcs[c].Idle? && states[n].pcs[c].Idle? {
        RefusedForCause(states, moves, handler, n - 1);
      }
    }
    if |states[n].servers| > 0 && forall m :: !Advances(states[n], m) {
      AllReturned(states[n]);
    }
  }
}
