/** Every step of every session and of the checkpoint thread keeps the admission invariant. */
module AdmissionInvariant {
  import opened Tally
  import opened TrMgr
  import opened Admission

  lemma InitInv(s: State)
    requires Init(s)
    ensures Inv(s)
  {
    CountNone(s.phases, Holder);
    CountNone(s.phases, RoHolder);
    CountNone(s.phases, Updater);
    CountNone(s.phases, HasPermit);
    forall v | ValidId(v) ensures v in s.sm.ids { assert s.sm.ids[v] == v; }
  }

  lemma PhaseTally(ps: seq<Phase>, j: nat, p: Phase)
    requires j < |ps|
    ensures Count(ps[j := p], Holder) + Bit(Holder(ps[j])) == Count(ps, Holder) + Bit(Holder(p))
    ensures Count(ps[j := p], RoHolder) + Bit(RoHolder(ps[j])) == Count(ps, RoHolder) + Bit(RoHolder(p))
    ensures Count(ps[j := p], Updater) + Bit(Updater(ps[j])) == Count(ps, Updater) + Bit(Updater(p))
    ensures Count(ps[j := p], HasPermit) + Bit(HasPermit(ps[j])) == Count(ps, HasPermit) + Bit(HasPermit(p))
  {
    CountUpdate(ps, j, p, Holder);
    CountUpdate(ps, j, p, RoHolder);
    CountUpdate(ps, j, p, Updater);
    CountUpdate(ps, j, p, HasPermit);
  }

  // ---------------------------------------------------------- the id table

  lemma IdKeep(ps: seq<Phase>, ids: seq<int>, j: nat, p: Phase)
    requires IdInv(ps, ids) && j < |ps| && Holder(p) == Holder(ps[j]) && (Holder(p) ==> p.trid == ps[j].trid)
    ensures IdInv(ps[j := p], ids)
  {
    var ps' := ps[j := p];
    PhaseTally(ps, j, p);
    forall i, v ensures HeldBy(ps', i, v) == HeldBy(ps, i, v) {}
  }

  lemma IdTake(ps: seq<Phase>, ids: seq<int>, j: nat, p: Phase)
    requires IdInv(ps, ids) && j < |ps| && !Holder(ps[j]) && ids != []
    requires Holder(p) && p.trid == ids[|ids| - 1]
    ensures IdInv(ps[j := p], ids[..|ids| - 1])
  {
    var ps', ids', last := ps[j := p], ids[..|ids| - 1], ids[|ids| - 1];
    PhaseTally(ps, j, p);
    forall i, v ensures HeldBy(ps', i, v) == if i == j then v == last else HeldBy(ps, i, v) {}
    assert forall v :: v in ids <==> v in ids' || v == last;
    forall v | ValidId(v) && v !in ids' ensures exists i :: HeldBy(ps', i, v) {
      if v == last { assert HeldBy(ps', j, v); }
      else { var i :| HeldBy(ps, i, v); assert HeldBy(ps', i, v); }
    }
  }

  lemma IdGive(ps: seq<Phase>, ids: seq<int>, j: nat, p: Phase)
    requires IdInv(ps, ids) && j < |ps| && Holder(ps[j]) && !Holder(p)
    ensures IdInv(ps[j := p], ids + [ps[j].trid])
  {
    var ps', back := ps[j := p], ps[j].trid;
    PhaseTally(ps, j, p);
    assert HeldBy(ps, j, back);
    forall i, v ensures HeldBy(ps', i, v) == (i != j && HeldBy(ps, i, v)) {}
    forall i | 0 <= i < |ps'| && Holder(ps'[i]) ensures ps'[i].trid !in ids + [back] {
      assert HeldBy(ps, i, ps'[i].trid);
    }
    forall v | ValidId(v) && v !in ids + [back] ensures exists i :: HeldBy(ps', i, v) {
      var i :| HeldBy(ps, i, v);
      assert HeldBy(ps', i, v);
    }
  }

  /** With at most as many sessions as ids, a session without an id always finds one. */
  lemma IdsLeft(ps: seq<Phase>, ids: seq<int>, j: nat)
    requires IdInv(ps, ids) && |ps| <= MAX_SESSIONS_NUMBER && j < |ps| && !Holder(ps[j])
    ensures ids != [] && ValidId(ids[|ids| - 1])
  {
    CountAll(ps, Holder);
  }

  lemma {:induction false} UpdatersSplit(ps: seq<Phase>)
    ensures Count(ps, Holder) == Count(ps, RoHolder) + Count(ps, Updater)
  {
    if ps != [] { UpdatersSplit(ps[1..]); }
  }

  // ---------------------------------------------------------- steps that keep the id

  /** Moves between phases with the same rights, other than waking the exclusive session. */
  lemma PhaseKeep(ps: seq<Phase>, sm: Sm, j: nat, p: Phase)
    requires |sm.sems| == |ps| && CountInv(ps, sm) && ExclusiveInv(ps, sm) && ParkInv(ps, sm) && j < |ps|
    requires Updater(p) == Updater(ps[j]) && RoHolder(p) == RoHolder(ps[j]) && Exclusive(p) == Exclusive(ps[j])
    requires !ps[j].Waking? && !p.Waking? && !ps[j].Parked? && !p.Parked?
    ensures CountInv(ps[j := p], sm) && ExclusiveInv(ps[j := p], sm) && ParkInv(ps[j := p], sm)
  {
    PhaseTally(ps, j, p);
  }

  lemma WakeParked(ps: seq<Phase>, sm: Sm, j: nat, p: Phase)
    requires |sm.sems| == |ps| && CountInv(ps, sm) && ExclusiveInv(ps, sm) && ParkInv(ps, sm) && j < |ps|
    requires ps[j].Parked? && p.Asking? && sm.sems[j] > 0
    ensures CountInv(ps[j := p], Lowered(sm, j)) && ExclusiveInv(ps[j := p], Lowered(sm, j))
    ensures ParkInv(ps[j := p], Lowered(sm, j))
  {
    PhaseTally(ps, j, p);
  }

  /** The exclusive session wakes up only when it is the sole updater. */
  lemma WakeExclusive(ps: seq<Phase>, sm: Sm, j: nat, p: Phase)
    requires |sm.sems| == |ps| && CountInv(ps, sm) && ExclusiveInv(ps, sm) && ParkInv(ps, sm) && j < |ps|
    requires ps[j].Waking? && p == Entered(ps[j].trid, false, true) && sm.sems[j] > 0
    ensures Count(ps, Updater) == 1
    ensures CountInv(ps[j := p], Lowered(sm, j)) && ExclusiveInv(ps[j := p], Lowered(sm, j))
    ensures ParkInv(ps[j := p], Lowered(sm, j))
  {
    PhaseTally(ps, j, p);
  }

  // ---------------------------------------------------------- asking

  lemma AskParked(ps: seq<Phase>, sm: Sm, j: nat, excl: bool)
    requires |sm.sems| == |ps| && CountInv(ps, sm) && ExclusiveInv(ps, sm) && ParkInv(ps, sm) && j < |ps|
    requires ps[j].Asking? && sm.exclusive != NO_SESSION
    ensures var sm' := sm.(waitList := sm.waitList + [j]);
            var ps' := ps[j := Parked(false, excl)]; CountInv(ps', sm') && ExclusiveInv(ps', sm') && ParkInv(ps', sm')
  {
    PhaseTally(ps, j, Parked(false, excl));
    assert j !in sm.waitList;
  }

  /** An ordinary grant: no exclusive session is set, or the request is read-only. */
  lemma AskGranted(ps: seq<Phase>, sm: Sm, j: nat, ro: bool)
    requires |sm.sems| == |ps| && CountInv(ps, sm) && ExclusiveInv(ps, sm) && ParkInv(ps, sm) && j < |ps|
    requires ps[j].Asking? && sm.ids != [] && (sm.exclusive == NO_SESSION || ro)
    ensures var sm', ps' := Taken(sm, ro), ps[j := Entered(sm.ids[|sm.ids| - 1], ro, false)];
            CountInv(ps', sm') && ExclusiveInv(ps', sm') && ParkInv(ps', sm')
  {
    PhaseTally(ps, j, Entered(sm.ids[|sm.ids| - 1], ro, false));
  }

  /** A grant that starts the exclusive mode. */
  lemma AskExclusive(ps: seq<Phase>, sm: Sm, j: nat)
    requires |sm.sems| == |ps| && Known(sm) && CountInv(ps, sm) && ExclusiveInv(ps, sm) && ParkInv(ps, sm) && j < |ps|
    requires ps[j].Asking? && sm.ids != [] && sm.exclusive == NO_SESSION
    ensures var sm', ps' := Started(Taken(sm, false).(exclusive := j)), ps[j := Waking(sm.ids[|sm.ids| - 1])];
            CountInv(ps', sm') && ExclusiveInv(ps', sm') && ParkInv(ps', sm')
  {
    PhaseTally(ps, j, Waking(sm.ids[|sm.ids| - 1]));
  }

  // ---------------------------------------------------------- giving back

  lemma {:induction false} RaisedAllAt(sems: seq<int>, list: seq<int>, j: nat)
    requires Unique(list) && j < |sems|
    requires forall n :: 0 <= n < |list| ==> 0 <= list[n] < |sems|
    ensures RaisedAll(sems, list)[j] == sems[j] + Bit(j in list)
  {
    if list != [] {
      var front := list[..|list| - 1];
      RaisedAllAt(sems, front, j);
      assert forall x :: x in list <==> x in front || x == list[|list| - 1];
    }
  }

  /** An updater other than the exclusive session ends. */
  lemma GiveUpdater(ps: seq<Phase>, sm: Sm, j: nat, p: Phase)
    requires |sm.sems| == |ps| && Known(sm) && CountInv(ps, sm) && ExclusiveInv(ps, sm) && ParkInv(ps, sm) && j < |ps|
    requires FlagInv(ps) && Updater(ps[j]) && !ps[j].Waking? && p.Closing? && ValidId(ps[j].trid) && j != sm.exclusive
    ensures var given, ps' := Given(sm, ps[j].trid, false), ps[j := p];
            var sm' := if sm.exclusive != NO_SESSION then Started(given) else given;
            CountInv(ps', sm') && ExclusiveInv(ps', sm') && ParkInv(ps', sm')
  {
    PhaseTally(ps, j, p);
    if sm.exclusive != NO_SESSION {
      var e := sm.exclusive;
      if j < e { CountPair(ps, j, e, Updater); } else { CountPair(ps, e, j, Updater); }
    }
  }

  lemma GiveReader(ps: seq<Phase>, sm: Sm, j: nat, p: Phase)
    requires |sm.sems| == |ps| && CountInv(ps, sm) && ExclusiveInv(ps, sm) && ParkInv(ps, sm) && j < |ps|
    requires RoHolder(ps[j]) && !Exclusive(ps[j]) && p.Closing? && ValidId(ps[j].trid)
    ensures var sm', ps' := Given(sm, ps[j].trid, true), ps[j := p];
            CountInv(ps', sm') && ExclusiveInv(ps', sm') && ParkInv(ps', sm')
  {
    PhaseTally(ps, j, p);
  }

  /** The exclusive session ends: everyone parked gets exactly one wake-up. */
  lemma GiveExclusive(ps: seq<Phase>, sm: Sm, j: nat, p: Phase)
    requires |sm.sems| == |ps| && Known(sm) && CountInv(ps, sm) && ExclusiveInv(ps, sm) && ParkInv(ps, sm) && j < |ps|
    requires Updater(ps[j]) && !ps[j].Waking? && p.Closing? && ValidId(ps[j].trid) && j == sm.exclusive
    ensures var sm', ps' := Exited(Given(sm, ps[j].trid, false)), ps[j := p];
            CountInv(ps', sm') && ExclusiveInv(ps', sm') && ParkInv(ps', sm')
  {
    PhaseTally(ps, j, p);
    var sm', ps' := Exited(Given(sm, ps[j].trid, false)), ps[j := p];
    forall i | 0 <= i < |ps'| ensures sm'.sems[i] == Pending(ps', sm'.waitList, i) {
      RaisedAllAt(sm.sems, sm.waitList, i);
    }
  }

  // ---------------------------------------------------------- every step, every run

  /** The parts of the invariant that a request hardly touches. */
  lemma AskRest(s: State, j: nat, p: Phase, sm: Sm)
    requires Shape(s) && FlagInv(s.phases) && PermitInv(s.phases, s.free, s.ck) && j < |s.phases| && s.phases[j].Asking?
    requires FlagsOk(p) && !HasPermit(p) && |sm.sems| == |s.sm.sems| && Known(sm)
    ensures var s' := At(s, j, p).(sm := sm); Shape(s') && FlagInv(s'.phases) && PermitInv(s'.phases, s'.free, s'.ck)
  {
    PhaseTally(s.phases, j, p);
  }

  lemma AskParkedStep(s: State, j: nat)
    requires Inv(s) && j < |s.phases| && s.phases[j].Asking? && s.sm.exclusive != NO_SESSION && !s.phases[j].ro
    ensures Inv(AskStep(s, j))
  {
    var p, sm := Parked(false, s.phases[j].excl), s.sm.(waitList := s.sm.waitList + [j]);
    assert AskStep(s, j) == At(s, j, p).(sm := sm);
    AskRest(s, j, p, sm);
    IdKeep(s.phases, s.sm.ids, j, p);
    AskParked(s.phases, s.sm, j, s.phases[j].excl);
  }

  lemma AskExclusiveStep(s: State, j: nat)
    requires Inv(s) && j < |s.phases| && s.phases[j].Asking? && s.sm.exclusive == NO_SESSION && s.phases[j].excl
    ensures Inv(AskStep(s, j))
  {
    IdsLeft(s.phases, s.sm.ids, j);
    var p, sm := Waking(s.sm.ids[|s.sm.ids| - 1]), Started(Taken(s.sm, false).(exclusive := j));
    assert AskStep(s, j) == At(s, j, p).(sm := sm);
    AskRest(s, j, p, sm);
    IdTake(s.phases, s.sm.ids, j, p);
    AskExclusive(s.phases, s.sm, j);
  }

  lemma AskGrantedStep(s: State, j: nat)
    requires Inv(s) && j < |s.phases| && s.phases[j].Asking? && !s.phases[j].excl
    requires s.sm.exclusive == NO_SESSION || s.phases[j].ro
    ensures Inv(AskStep(s, j))
  {
    IdsLeft(s.phases, s.sm.ids, j);
    var ro := s.phases[j].ro;
    var p, sm := Entered(s.sm.ids[|s.sm.ids| - 1], ro, false), Taken(s.sm, ro);
    assert AskStep(s, j) == At(s, j, p).(sm := sm);
    AskRest(s, j, p, sm);
    IdTake(s.phases, s.sm.ids, j, p);
    AskGranted(s.phases, s.sm, j, ro);
  }

  lemma AskStepInv(s: State, j: nat)
    requires Inv(s) && j < |s.phases| && s.phases[j].Asking?
    ensures Inv(AskStep(s, j))
  {
    var p := s.phases[j];
    if s.sm.exclusive != NO_SESSION && !p.ro {
      AskParkedStep(s, j);
    } else if p.excl {
      AskExclusiveStep(s, j);
    } else {
      AskGrantedStep(s, j);
    }
  }

  lemma GiveStepInv(s: State, j: nat, ro: bool, permit: bool)
    requires Inv(s) && j < |s.phases| && (s.phases[j].Running? || s.phases[j].Checkpointing?)
    requires ro == RoHolder(s.phases[j]) && permit == HasPermit(s.phases[j])
    ensures Inv(GiveStep(s, j, ro, permit))
  {
    var p' := Closing(permit);
    PhaseTally(s.phases, j, p');
    IdGive(s.phases, s.sm.ids, j, p');
    if ro {
      GiveReader(s.phases, s.sm, j, p');
    } else if j == s.sm.exclusive {
      GiveExclusive(s.phases, s.sm, j, p');
    } else {
      GiveUpdater(s.phases, s.sm, j, p');
    }
  }

  /** Steps that neither ask for nor give back an id. */
  lemma PlainStepInv(s: State, j: nat)
    requires Inv(s) && Enabled(s, Next(j))
    requires !s.phases[j].Asking? && !s.phases[j].Running? && !s.phases[j].Checkpointing?
    ensures Inv(NextStep(s, j))
  {
    var p, p' := s.phases[j], NextStep(s, j).phases[j];
    PhaseTally(s.phases, j, p');
    IdKeep(s.phases, s.sm.ids, j, p');
    if p.Parked? {
      WakeParked(s.phases, s.sm, j, p');
    } else if p.Waking? {
      WakeExclusive(s.phases, s.sm, j, p');
    } else {
      PhaseKeep(s.phases, s.sm, j, p');
    }
  }

  lemma NextStepInv(s: State, j: nat)
    requires Inv(s) && Enabled(s, Next(j))
    ensures Inv(NextStep(s, j))
  {
    match s.phases[j]
    case Asking(_, _) => AskStepInv(s, j);
    case Running(_, ro, _) => GiveStepInv(s, j, ro, !ro);
    case Checkpointing(_, _) => GiveStepInv(s, j, false, false);
    case _ => PlainStepInv(s, j);
  }

  lemma BeginInv(s: State, j: nat, ro: bool, excl: bool)
    requires Inv(s) && Enabled(s, Begin(j, ro, excl))
    ensures Inv(Apply(s, Begin(j, ro, excl)))
  {
    PhaseTally(s.phases, j, Asking(ro, excl));
    IdKeep(s.phases, s.sm.ids, j, Asking(ro, excl));
    PhaseKeep(s.phases, s.sm, j, Asking(ro, excl));
  }

  lemma CommitInv(s: State, j: nat)
    requires Inv(s) && Enabled(s, CommitWithCheckpoint(j))
    ensures Inv(Apply(s, CommitWithCheckpoint(j)))
  {
    var p := Checkpointing(s.phases[j].trid, s.phases[j].excl);
    PhaseTally(s.phases, j, p);
    IdKeep(s.phases, s.sm.ids, j, p);
    PhaseKeep(s.phases, s.sm, j, p);
  }

  lemma CkStepInv(s: State)
    requires Inv(s) && Enabled(s, Checkpoint)
    ensures Inv(CkStep(s))
  {
    PermitKept(s.phases, s);
    assert CkStep(s).phases == s.phases && CkStep(s).sm == s.sm;
  }

  lemma PermitKept(ps: seq<Phase>, s: State)
    requires PermitInv(ps, s.free, s.ck) && Enabled(s, Checkpoint)
    ensures PermitInv(ps, CkStep(s).free, CkStep(s).ck)
  {
  }

  lemma StepInv(s: State, m: Move)
    requires Inv(s) && Enabled(s, m)
    ensures Inv(Apply(s, m))
  {
    match m
    case Begin(j, ro, excl) => BeginInv(s, j, ro, excl);
    case Next(j) => NextStepInv(s, j);
    case CommitWithCheckpoint(j) => CommitInv(s, j);
    case Checkpoint => CkStepInv(s);
  }

  lemma {:induction false} RunInv(states: seq<State>, moves: seq<Move>, n: nat)
    requires Run(states, moves) && n < |states|
    ensures Inv(states[n])
  {
    if n == 0 {
      InitInv(states[0]);
    } else {
      RunInv(states, moves, n - 1);
      StepInv(states[n - 1], moves[n - 1]);
    }
  }
}
