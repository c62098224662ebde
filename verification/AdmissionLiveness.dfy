/**
 Every transaction gets through: without new begins the sessions make a bounded number of
 moves, and while one of them is inside a transaction some session can move, at once or
 after at most three moves of a checkpoint under way. And every checkpoint gets through.
 */
module AdmissionLiveness {
  import opened Tally
  import opened TrMgr
  import opened Admission
  import opened AdmissionInvariant
  import opened AdmissionTheorems

  // ---------------------------------------------------------- bounded work

  /** Moves a session still has to make; one that wants to be alone also pays for those it
      will have kept waiting. */
  function PhaseWork(p: Phase): nat {
    (match p
     case Outside => 0
     case Asking(_, _) => 6
     case Parked(_, _) => 7
     case Waking(_) => 5
     case Entered(_, _, _) => 4
     case Running(_, _, _) => 3
     case Checkpointing(_, _) => 2
     case Closing(_) => 1
     case Failed => 0)
    + (if Exclusive(p) || ((p.Asking? || p.Parked?) && p.excl) then 2 * MAX_SESSIONS_NUMBER else 0)
  }

  /** A session on the list is two moves short of asking again. */
  function Work(s: State): int {
    Weigh(s.phases, PhaseWork) + 2 * (MAX_SESSIONS_NUMBER - |s.sm.waitList|)
  }

  lemma {:induction false} ListSize(list: seq<int>, all: set<int>)
    requires Unique(list) && forall n :: 0 <= n < |list| ==> list[n] in all
    ensures |list| <= |all|
  {
    if list != [] {
      var front, last := list[..|list| - 1], list[|list| - 1];
      assert forall n :: 0 <= n < |front| ==> front[n] in all - {last};
      ListSize(front, all - {last});
    }
  }

  function Below(n: nat): (r: set<int>)
    ensures |r| == n && forall i :: i in r <==> 0 <= i < n
  {
    if n == 0 then {} else Below(n - 1) + {n - 1}
  }

  lemma ListBounded(s: State)
    requires Inv(s)
    ensures |s.sm.waitList| <= MAX_SESSIONS_NUMBER
  {
    ListSize(s.sm.waitList, Below(|s.phases|));
  }

  /** A move that is neither a begin nor the checkpoint's. */
  predicate BySession(m: Move) { m.Next? || m.CommitWithCheckpoint? }

  lemma AskPays(s: State, j: nat)
    requires Inv(s) && Enabled(s, Next(j)) && s.phases[j].Asking?
    ensures Work(NextStep(s, j)) < Work(s)
  {
    assert FlagsOk(s.phases[j]);
    WeighUpdate(s.phases, j, NextStep(s, j).phases[j], PhaseWork);
  }

  lemma GivePays(s: State, j: nat)
    requires Inv(s) && Enabled(s, Next(j)) && (s.phases[j].Running? || s.phases[j].Checkpointing?)
    ensures Work(NextStep(s, j)) < Work(s)
  {
    ListBounded(s);
    NextStepInv(s, j);
    WeighUpdate(s.phases, j, NextStep(s, j).phases[j], PhaseWork);
  }

  lemma PlainPays(s: State, j: nat)
    requires Inv(s) && Enabled(s, Next(j))
    requires !s.phases[j].Asking? && !s.phases[j].Running? && !s.phases[j].Checkpointing?
    ensures Work(NextStep(s, j)) < Work(s)
  {
    WeighUpdate(s.phases, j, NextStep(s, j).phases[j], PhaseWork);
  }

  lemma CommitPays(s: State, j: nat)
    requires Inv(s) && Enabled(s, CommitWithCheckpoint(j))
    ensures Work(Apply(s, CommitWithCheckpoint(j))) < Work(s)
  {
    WeighUpdate(s.phases, j, Checkpointing(s.phases[j].trid, s.phases[j].excl), PhaseWork);
  }

  lemma MovePays(s: State, m: Move)
    requires Inv(s) && Enabled(s, m) && !m.Begin?
    ensures Work(Apply(s, m)) <= Work(s) - Bit(BySession(m))
  {
    if m.CommitWithCheckpoint? {
      CommitPays(s, m.session);
    } else if m.Next? {
      if s.phases[m.session].Asking? {
        AskPays(s, m.session);
      } else if s.phases[m.session].Running? || s.phases[m.session].Checkpointing? {
        GivePays(s, m.session);
      } else {
        PlainPays(s, m.session);
      }
    }
  }

  /** The moves of sessions from a to b. */
  function Spent(moves: seq<Move>, a: nat, b: nat): nat
    requires a <= b <= |moves|
  {
    if a == b then 0 else Spent(moves, a, b - 1) + Bit(BySession(moves[b - 1]))
  }

  lemma {:induction false} SessionsSpend(states: seq<State>, moves: seq<Move>, a: nat, b: nat)
    requires Run(states, moves) && a <= b < |states| && forall i :: a <= i < b ==> !moves[i].Begin?
    ensures Spent(moves, a, b) + Work(states[b]) <= Work(states[a])
  {
    if a < b {
      RunInv(states, moves, b - 1);
      SessionsSpend(states, moves, a, b - 1);
      MovePays(states[b - 1], moves[b - 1]);
    }
  }

  // ---------------------------------------------------------- progress

  /** Some session can move. */
  ghost predicate SessionMoves(s: State) {
    exists j: nat :: Enabled(s, Next(j))
  }

  /** A session that holds an id and is not waiting to be woken is kept only by the checkpoint. */
  lemma HolderBlocked(s: State, j: nat)
    requires Inv(s) && j < |s.phases| && Holder(s.phases[j]) && !s.phases[j].Waking? && !SessionMoves(s)
    ensures s.phases[j].Entered? && s.free == 0 && CkHeld(s.ck) == CHARISMA_MAX_TRNS_NUMBER
  {
    assert !Enabled(s, Next(j));
    if Count(s.phases, HasPermit) > 0 {
      var i := CountWitness(s.phases, HasPermit);
      assert Enabled(s, Next(i));
    }
  }

  lemma ExclusiveBlocked(s: State, e: nat) returns (j: nat)
    requires Inv(s) && e < |s.phases| && Exclusive(s.phases[e]) && !SessionMoves(s)
    ensures j < |s.phases| && s.phases[j].Entered? && s.free == 0 && CkHeld(s.ck) == CHARISMA_MAX_TRNS_NUMBER
  {
    assert !Enabled(s, Next(e));
    if !s.phases[e].Waking? {
      j := e;
    } else {
      CountMember(s.phases, e, Updater);
      CountUpdate(s.phases, e, Outside, Updater);
      j := CountWitness(s.phases[e := Outside], Updater);
    }
    HolderBlocked(s, j);
  }

  /** When no session can move though one is inside a transaction, one of them waits for a
      permit and the checkpoint has them all. */
  lemma AllBlocked(s: State, i: nat) returns (j: nat)
    requires Inv(s) && i < |s.phases| && !s.phases[i].Outside? && !SessionMoves(s)
    ensures j < |s.phases| && s.phases[j].Entered? && s.free == 0 && CkHeld(s.ck) == CHARISMA_MAX_TRNS_NUMBER
  {
    assert FlagsOk(s.phases[i]);
    assert !Enabled(s, Next(i));
    if s.phases[i].Parked? {
      j := ExclusiveBlocked(s, s.sm.exclusive);
    } else if s.phases[i].Waking? {
      j := ExclusiveBlocked(s, i);
    } else {
      j := i;
      HolderBlocked(s, j);
    }
  }

  /** Moves of its own after which a checkpoint that has all permits gives one back. */
  function FreeSteps(ck: Checkpointer): nat {
    match ck
    case Collecting(_) => 3
    case Body => 2
    case _ => 1
  }

  /** The state after n moves of the checkpoint. */
  function CkAfter(s: State, n: nat): State
    decreases n
  {
    if n == 0 then s else CkAfter(CkStep(s), n - 1)
  }

  ghost predicate CkGoes(s: State, n: nat)
    decreases n
  {
    n == 0 || (Enabled(s, Checkpoint) && CkGoes(CkStep(s), n - 1))
  }

  lemma {:induction false} CkFrees(s: State)
    requires Inv(s) && s.free == 0 && CkHeld(s.ck) == CHARISMA_MAX_TRNS_NUMBER
    ensures CkGoes(s, FreeSteps(s.ck))
    ensures var t := CkAfter(s, FreeSteps(s.ck)); t.free == 1 && t.phases == s.phases && t.sm == s.sm
    decreases FreeSteps(s.ck)
  {
    CkStepInv(s);
    if FreeSteps(s.ck) > 1 {
      CkFrees(CkStep(s));
    } else {
      assert CkAfter(s, 1) == CkAfter(CkStep(s), 0) == CkStep(s);
    }
  }

  /** Every transaction gets through, in every run: from any state on, without new begins,
      the sessions make at most Work moves; and while a session is inside a transaction, some
      session can move, if need be after at most three moves of the checkpoint. */
  lemma TransactionsEnd(states: seq<State>, moves: seq<Move>, a: nat, b: nat)
    requires Run(states, moves) && a <= b < |states| && forall i :: a <= i < b ==> !moves[i].Begin?
    ensures Spent(moves, a, b) <= Work(states[a])
    ensures (exists j :: 0 <= j < |states[b].phases| && !states[b].phases[j].Outside?) ==>
      || SessionMoves(states[b])
      || (CkGoes(states[b], FreeSteps(states[b].ck)) && SessionMoves(CkAfter(states[b], FreeSteps(states[b].ck))))
  {
    SessionsSpend(states, moves, a, b);
    RunInv(states, moves, b);
    var s := states[b];
    ListBounded(s);
    if i :| 0 <= i < |s.phases| && !s.phases[i].Outside? {
      if !SessionMoves(s) {
        var j := AllBlocked(s, i);
        CkFrees(s);
        assert Enabled(CkAfter(s, FreeSteps(s.ck)), Next(j));
      }
    }
  }

  // ---------------------------------------------------------- the checkpoint

  /** Moves of the checkpoint thread before it enters the body. */
  function CkLeft(ck: Checkpointer): nat {
    match ck
    case Resting => CHARISMA_MAX_TRNS_NUMBER + 2
    case Collecting(n) => if n <= CHARISMA_MAX_TRNS_NUMBER then CHARISMA_MAX_TRNS_NUMBER + 1 - n else 0
    case Body => 0
    case Returning(n) => n + 1 + CHARISMA_MAX_TRNS_NUMBER + 2
  }

  /** With no updater between taking and returning its permit, the checkpoint thread is never
      blocked and enters the body after exactly that many moves, alone. */
  lemma {:induction false} CheckpointEnters(s: State)
    requires Inv(s) && Count(s.phases, HasPermit) == 0
    ensures CkGoes(s, CkLeft(s.ck)) && CkAfter(s, CkLeft(s.ck)).ck == Body
    decreases CkLeft(s.ck)
  {
    if CkLeft(s.ck) > 0 {
      CkStepInv(s);
      CheckpointEnters(CkStep(s));
    }
  }
}
