/** What transaction admission guarantees in every reachable state. */
module AdmissionTheorems {
  import opened Tally
  import opened TrMgr
  import opened Admission
  import opened AdmissionInvariant

  // ---------------------------------------------------------- ids

  /**
   Free and held ids partition 0..49, the updater count is exact, a request never
   fails and the double-identifier error is unreachable.
   */
  lemma IdsPartition(states: seq<State>, moves: seq<Move>, n: nat, v: int)
    requires Run(states, moves) && n < |states| && ValidId(v)
    ensures v in states[n].sm.ids <==> !exists j :: HeldBy(states[n].phases, j, v)
    ensures forall i, j :: HeldBy(states[n].phases, i, v) && HeldBy(states[n].phases, j, v) ==> i == j
    ensures Unique(states[n].sm.ids)
    ensures ActiveUpdaters(states[n].sm) == Count(states[n].phases, Updater)
    ensures forall j :: 0 <= j < |states[n].phases| ==> !states[n].phases[j].Failed?
  {
    RunInv(states, moves, n);
    var ps := states[n].phases;
    if v in states[n].sm.ids {
      forall j ensures !HeldBy(ps, j, v) {}
    }
  }

  /** Giving an id back keeps the updater count exact exactly when the flag is the one it was taken with. */
  lemma FlagMustMatch(s: State, j: nat, ro: bool)
    requires Inv(s) && j < |s.phases| && Holder(s.phases[j])
    ensures CountInv(s.phases[j := Closing(false)], Given(s.sm, s.phases[j].trid, ro)) <==> ro == RoHolder(s.phases[j])
  {
    PhaseTally(s.phases, j, Closing(false));
  }

  /** Two sessions before any transaction, and the first one in an update. */
  function TwoSessions(): State {
    State([Outside, Outside], Sm(seq(50, i => i), 0, NO_SESSION, [], [0, 0]), 50, Resting)
  }

  function FirstUpdates(): State {
    State([Running(49, false, false), Outside], Sm(seq(49, i => i), 0, NO_SESSION, [], [0, 0]), 49, Resting)
  }

  lemma FirstUpdatesReached() returns (states: seq<State>)
    ensures Run(states, [Begin(0, false, false), Next(0), Next(0)]) && states[3] == FirstUpdates()
  {
    var s0 := TwoSessions();
    var s1 := s0.(phases := [Asking(false, false), Outside]);
    var s2 := State([Entered(49, false, false), Outside], FirstUpdates().sm, 50, Resting);
    var s3 := FirstUpdates();
    assert s0.sm.ids[..49] == seq(49, i => i);
    assert Apply(s0, Begin(0, false, false)) == s1;
    assert Taken(s0.sm, false) == s2.sm;
    assert AskStep(s1, 0) == s2;
    assert Apply(s2, Next(0)) == s3;
    states := [s0, s1, s2, s3];
  }

  /** A session that turns read-only in mid-transaction: its id comes back, but an updater is
      counted for ever that does not exist, and the next exclusive session waits for it. */
  lemma FlagChangeLosesCount() returns (states: seq<State>)
    ensures Run(states, [Begin(0, false, false), Next(0), Next(0)]) && states[3] == FirstUpdates()
    ensures var s := GiveStep(FirstUpdates(), 0, true, true);
      && Count(s.phases, Updater) == 0 && ActiveUpdaters(s.sm) == 1
      && Known(s.sm) && var (sm, answer) := Asked(s.sm, 1, false, true);
         !answer.again && answer.trid == 49 && sm.exclusive == 1 && sm.sems[1] == 0
  {
    states := FirstUpdatesReached();
    var s := GiveStep(FirstUpdates(), 0, true, true);
    assert s.phases == [Closing(true), Outside];
    CountNone(s.phases, Updater);
  }

  // ---------------------------------------------------------- who is admitted as what

  /** What a request for an id comes to: an updater is parked if and only if an exclusive
      session is set; an exclusive one otherwise gets its id and waits to be alone; everyone
      else, a reader in particular, gets an id at once, with the flags it asked with. */
  lemma AskedOutcome(states: seq<State>, moves: seq<Move>, n: nat, j: nat)
    requires Run(states, moves) && n < |moves| && moves[n] == Next(j) && states[n].phases[j].Asking?
    ensures j < |states[n + 1].phases|
    ensures var s, p, q := states[n], states[n].phases[j], states[n + 1].phases[j];
      && (q.Parked? <==> s.sm.exclusive != NO_SESSION && !p.ro)
      && (q.Waking? <==> s.sm.exclusive == NO_SESSION && p.excl)
      && (q.Entered? <==> p.ro || (s.sm.exclusive == NO_SESSION && !p.excl))
      && (q.Parked? ==> q == Parked(false, p.excl))
      && (!q.Parked? ==> s.sm.ids != [] && states[n + 1].sm.ids == s.sm.ids[..|s.sm.ids| - 1])
      && (q.Waking? ==> q.trid in s.sm.ids)
      && (q.Entered? ==> q.trid in s.sm.ids && q == Entered(q.trid, p.ro, p.excl))
  {
    RunInv(states, moves, n);
    RunInv(states, moves, n + 1);
    IdsLeft(states[n].phases, states[n].sm.ids, j);
    assert FlagsOk(states[n + 1].phases[j]) && FlagsOk(states[n].phases[j]);
  }

  /** A reader is admitted whatever exclusive session is set. */
  lemma ReaderAdmitted(states: seq<State>, moves: seq<Move>, n: nat, j: nat)
    requires Run(states, moves) && n < |moves| && moves[n] == Next(j) && states[n].phases[j] == Asking(true, false)
    ensures j < |states[n + 1].phases| && states[n + 1].phases[j].Entered?
    ensures states[n + 1].phases[j] == Entered(states[n + 1].phases[j].trid, true, false)
    ensures states[n + 1].sm.exclusive == states[n].sm.exclusive && states[n + 1].sm.waitList == states[n].sm.waitList
  {
    AskedOutcome(states, moves, n, j);
  }

  /** The flags a phase carries. */
  predicate Carries(p: Phase, ro: bool, excl: bool) {
    match p
    case Asking(r, x) => r == ro && x == excl
    case Parked(r, x) => r == ro && x == excl
    case Waking(_) => !ro && excl
    case Entered(_, r, x) => r == ro && x == excl
    case Running(_, r, x) => r == ro && x == excl
    case Checkpointing(_, x) => !ro && x == excl
    case Closing(permit) => ro ==> !permit
    case _ => true
  }

  lemma CarriesOn(s: State, m: Move, j: nat, ro: bool, excl: bool)
    requires Inv(s) && Enabled(s, m) && j < |s.phases| && !(m.Begin? && m.session == j)
    requires Carries(s.phases[j], ro, excl)
    ensures j < |Apply(s, m).phases| && Carries(Apply(s, m).phases[j], ro, excl)
  {
    assert FlagsOk(s.phases[j]);
  }

  lemma {:induction false} FlagsCarried(states: seq<State>, moves: seq<Move>, a: nat, b: nat, j: nat, ro: bool, excl: bool)
    requires Run(states, moves) && a < b < |states| && moves[a] == Begin(j, ro, excl)
    requires forall i :: a < i < b ==> !(moves[i].Begin? && moves[i].session == j)
    ensures j < |states[b].phases| && Carries(states[b].phases[j], ro, excl)
  {
    if a < b - 1 {
      RunInv(states, moves, b - 1);
      FlagsCarried(states, moves, a, b - 1, j, ro, excl);
      CarriesOn(states[b - 1], moves[b - 1], j, ro, excl);
    }
  }

  lemma ReaderFree(p: Phase, excl: bool)
    requires FlagsOk(p) && Carries(p, true, excl)
    ensures !p.Parked? && !p.Waking? && !p.Checkpointing? && !HasPermit(p) && !Updater(p)
  {
  }

  /** From its begin to its end a session has the flags it began with; one that began as a
      reader is never parked, never waits to be alone and never holds a permit. */
  lemma FlagsKept(states: seq<State>, moves: seq<Move>, a: nat, b: nat, j: nat, ro: bool, excl: bool)
    requires Run(states, moves) && a < b < |states| && moves[a] == Begin(j, ro, excl)
    requires forall i :: a < i < b ==> !(moves[i].Begin? && moves[i].session == j)
    ensures j < |states[b].phases| && Carries(states[b].phases[j], ro, excl)
    ensures ro ==> var p := states[b].phases[j]; !p.Parked? && !p.Waking? && !HasPermit(p) && !Updater(p)
  {
    FlagsCarried(states, moves, a, b, j, ro, excl);
    RunInv(states, moves, b);
    if ro {
      ReaderFree(states[b].phases[j], excl);
    }
  }

  // ---------------------------------------------------------- exclusive mode

  /** A woken exclusive session is the only updater, in every reachable state until it ends. */
  lemma ExclusiveAlone(states: seq<State>, moves: seq<Move>, n: nat, e: nat, j: nat)
    requires Run(states, moves) && n < |states| && e < |states[n].phases| && j < |states[n].phases|
    requires Exclusive(states[n].phases[e]) && !states[n].phases[e].Waking? && Updater(states[n].phases[j])
    ensures j == e && states[n].sm.exclusive == e
  {
    RunInv(states, moves, n);
    var ps := states[n].phases;
    assert FlagsOk(ps[e]);
    if j < e { CountPair(ps, j, e, Updater); }
    if e < j { CountPair(ps, e, j, Updater); }
  }

  /** While an exclusive session is set, nobody becomes an updater. */
  lemma NoGrantWhileExclusive(states: seq<State>, moves: seq<Move>, n: nat, j: nat)
    requires Run(states, moves) && n < |moves| && states[n].sm.exclusive != NO_SESSION
    requires j < |states[n].phases| && j < |states[n + 1].phases| && Updater(states[n + 1].phases[j])
    ensures Updater(states[n].phases[j])
  {
    RunInv(states, moves, n);
  }

  function SemAt(s: State, j: nat): int {
    if j < |s.sm.sems| then s.sm.sems[j] else 0
  }

  predicate ParkedAt(s: State, j: nat) { j < |s.phases| && s.phases[j].Parked? }
  predicate WakingAt(s: State, j: nat) { j < |s.phases| && s.phases[j].Waking? }

  /** In a reachable state the semaphore is a function of the phase and the list. */
  lemma SemIsPending(s: State, j: nat)
    requires Inv(s)
    ensures SemAt(s, j) == if ParkedAt(s, j) then Bit(j !in s.sm.waitList)
                           else if WakingAt(s, j) then Bit(Count(s.phases, Updater) == 1)
                           else 0
  {
    if j < |s.phases| { assert s.sm.sems[j] == Pending(s.phases, s.sm.waitList, j); }
  }

  lemma {:induction false} RaisedAllUp(sems: seq<int>, list: seq<int>, j: nat)
    requires j < |sems| && forall n :: 0 <= n < |list| ==> 0 <= list[n] < |sems|
    ensures RaisedAll(sems, list)[j] >= sems[j]
  {
    if list != [] {
      RaisedAllUp(sems, list[..|list| - 1], j);
    }
  }

  /** The manager itself only ever raises semaphores. */
  lemma ManagerRaises(sm: Sm, sid: nat, ro: bool, exclusive: bool, trid: int, j: nat)
    requires Known(sm) && sid < |sm.sems| && j < |sm.sems|
    ensures Asked(sm, sid, ro, exclusive).0.sems[j] >= sm.sems[j]
    ensures var r := Gave(sm, sid, trid, ro); r.Released? ==> |r.sm.sems| == |sm.sems| && r.sm.sems[j] >= sm.sems[j]
  {
    RaisedAllUp(sm.sems, sm.waitList, j);
  }

  /** Only a wait lowers a semaphore, the one waited for. */
  lemma WaitLowers(s: State, m: Move, j: nat)
    requires Enabled(s, m) && j < |s.sm.sems| && SemAt(Apply(s, m), j) < SemAt(s, j)
    ensures m == Next(j) && (s.phases[j].Parked? || s.phases[j].Waking?)
  {
    if m.Next? {
      var i := m.session;
      if s.phases[i].Asking? {
        ManagerRaises(s.sm, i, s.phases[i].ro, s.phases[i].excl, 0, j);
      } else if s.phases[i].Running? || s.phases[i].Checkpointing? {
        ManagerRaises(s.sm, i, s.phases[i].Running? && s.phases[i].ro, false, s.phases[i].trid, j);
      }
    }
  }

  /** A semaphore is lowered only by its own session, which is then no longer waiting. */
  lemma LoweredByOwner(s: State, m: Move, j: nat)
    requires Inv(s) && Enabled(s, m) && SemAt(Apply(s, m), j) < SemAt(s, j)
    ensures m == Next(j) && !ParkedAt(Apply(s, m), j) && !WakingAt(Apply(s, m), j)
  {
    SemIsPending(s, j);
    StepInv(s, m);
    SemIsPending(Apply(s, m), j);
    WaitLowers(s, m, j);
  }

  /** How often the semaphore of session j is raised between two states of a run. */
  ghost function Raises(states: seq<State>, j: nat, a: nat, b: nat): nat
    requires a <= b < |states|
  {
    if a == b then 0 else Raises(states, j, a, b - 1) + Bit(SemAt(states[b], j) > SemAt(states[b - 1], j))
  }

  /** Wake-ups an exclusive session has had so far: one, from the moment its semaphore is raised. */
  function HasBeenWoken(s: State, e: nat): int {
    if WakingAt(s, e) then SemAt(s, e) else 1
  }

  /** A step under one and the same exclusive session raises its semaphore only to wake it. */
  lemma ExclusiveStep(s: State, m: Move, e: nat)
    requires Inv(s) && Enabled(s, m) && s.sm.exclusive == e && Apply(s, m).sm.exclusive == e
    ensures HasBeenWoken(Apply(s, m), e) == HasBeenWoken(s, e) + Bit(SemAt(Apply(s, m), e) > SemAt(s, e))
  {
    StepInv(s, m);
    SemIsPending(s, e);
    SemIsPending(Apply(s, m), e);
    if SemAt(Apply(s, m), e) < SemAt(s, e) { LoweredByOwner(s, m, e); }
  }

  /** The step that enters the exclusive mode is the session's own request. */
  lemma EnterExclusive(s: State, m: Move, e: nat)
    requires Inv(s) && Enabled(s, m) && s.sm.exclusive == NO_SESSION && Apply(s, m).sm.exclusive == e
    ensures m == Next(e) && s.phases[e].Asking? && WakingAt(Apply(s, m), e)
    ensures HasBeenWoken(Apply(s, m), e) == Bit(SemAt(Apply(s, m), e) > SemAt(s, e))
  {
    StepInv(s, m);
    SemIsPending(s, e);
    SemIsPending(Apply(s, m), e);
  }

  /** From its grant to its release the exclusive session is woken exactly once. */
  lemma {:induction false} ExclusiveWokenOnce(states: seq<State>, moves: seq<Move>, e: nat, a: nat, b: nat)
    requires Run(states, moves) && a < b < |states|
    requires states[a].sm.exclusive == NO_SESSION && forall i :: a < i <= b ==> states[i].sm.exclusive == e
    ensures Raises(states, e, a, b) == HasBeenWoken(states[b], e)
  {
    var n := b - 1;
    RunInv(states, moves, n);
    assert states[n + 1] == Apply(states[n], moves[n]);
    if a < n {
      ExclusiveWokenOnce(states, moves, e, a, n);
      ExclusiveStep(states[n], moves[n], e);
    } else {
      EnterExclusive(states[n], moves[n], e);
    }
  }

  lemma ParkedStep(s: State, m: Move, j: nat)
    requires Inv(s) && Enabled(s, m) && ParkedAt(s, j) && ParkedAt(Apply(s, m), j)
    ensures Bit(j !in Apply(s, m).sm.waitList) == Bit(j !in s.sm.waitList) + Bit(SemAt(Apply(s, m), j) > SemAt(s, j))
  {
    StepInv(s, m);
    SemIsPending(s, j);
    SemIsPending(Apply(s, m), j);
    if SemAt(Apply(s, m), j) < SemAt(s, j) { LoweredByOwner(s, m, j); }
  }

  /** While a session stays parked it is woken at most once, and exactly when it leaves the list. */
  lemma {:induction false} ParkedWokenOnce(states: seq<State>, moves: seq<Move>, j: nat, a: nat, b: nat)
    requires Run(states, moves) && a <= b < |states|
    requires j in states[a].sm.waitList && forall i :: a <= i <= b ==> ParkedAt(states[i], j)
    ensures Raises(states, j, a, b) == Bit(j !in states[b].sm.waitList)
  {
    if a < b {
      var n := b - 1;
      ParkedWokenOnce(states, moves, j, a, n);
      RunInv(states, moves, n);
      assert states[n + 1] == Apply(states[n], moves[n]);
      ParkedStep(states[n], moves[n], j);
    }
  }

  /** Nobody is left on the list when no exclusive session is set. */
  lemma NobodyLeftParked(states: seq<State>, moves: seq<Move>, n: nat, j: nat)
    requires Run(states, moves) && n < |states| && states[n].sm.exclusive == NO_SESSION && ParkedAt(states[n], j)
    ensures SemAt(states[n], j) == 1
  {
    RunInv(states, moves, n);
    SemIsPending(states[n], j);
  }

  // ---------------------------------------------------------- permits

  /** While the checkpoint body runs no updater is between taking and returning its permit. */
  lemma CheckpointAlone(states: seq<State>, moves: seq<Move>, n: nat)
    requires Run(states, moves) && n < |states|
    ensures states[n].free + Count(states[n].phases, HasPermit) + CkHeld(states[n].ck) == CHARISMA_MAX_TRNS_NUMBER
    ensures states[n].ck.Body? ==> forall j :: 0 <= j < |states[n].phases| ==> !HasPermit(states[n].phases[j])
  {
    RunInv(states, moves, n);
    var ps := states[n].phases;
    if states[n].ck.Body? {
      forall j | 0 <= j < |ps| ensures !HasPermit(ps[j]) {
        if HasPermit(ps[j]) { CountMember(ps, j, HasPermit); }
      }
    }
  }

  // ---------------------------------------------------------- no deadlock

  /** A step of a session in a transaction, or of a checkpoint under way. */
  ghost predicate Useful(s: State, m: Move) {
    Enabled(s, m) && (m.Next? || (m.Checkpoint? && !s.ck.Resting?))
  }

  /** A session with an id that is not waiting to be woken can move, or whoever holds the permits can. */
  lemma HolderProgress(s: State, j: nat) returns (m: Move)
    requires Inv(s) && j < |s.phases| && Holder(s.phases[j]) && !s.phases[j].Waking?
    ensures Useful(s, m)
  {
    if Enabled(s, Next(j)) {
      m := Next(j);
    } else if Count(s.phases, HasPermit) > 0 {
      var i := CountWitness(s.phases, HasPermit);
      m := Next(i);
    } else {
      m := Checkpoint;
    }
  }

  /** The exclusive session is woken, or another updater can still move. */
  lemma ExclusiveProgress(s: State, e: nat) returns (m: Move)
    requires Inv(s) && e < |s.phases| && Exclusive(s.phases[e])
    ensures Useful(s, m)
  {
    if !s.phases[e].Waking? {
      m := HolderProgress(s, e);
    } else if s.sm.sems[e] > 0 {
      m := Next(e);
    } else {
      CountMember(s.phases, e, Updater);
      CountUpdate(s.phases, e, Outside, Updater);
      var i := CountWitness(s.phases[e := Outside], Updater);
      m := HolderProgress(s, i);
    }
  }

  /** No deadlock: while some session is in a transaction, some session or the checkpoint can move. */
  lemma NoDeadlock(states: seq<State>, moves: seq<Move>, n: nat, j: nat) returns (m: Move)
    requires Run(states, moves) && n < |states| && j < |states[n].phases| && !states[n].phases[j].Outside?
    ensures Useful(states[n], m)
  {
    RunInv(states, moves, n);
    var s := states[n];
    assert FlagsOk(s.phases[j]);
    if Enabled(s, Next(j)) {
      m := Next(j);
    } else if s.phases[j].Parked? {
      m := ExclusiveProgress(s, s.sm.exclusive);
    } else if s.phases[j].Waking? {
      m := ExclusiveProgress(s, j);
    } else {
      m := HolderProgress(s, j);
    }
  }
}
