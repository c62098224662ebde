/**
 Transaction admission over whole runs: any number of sessions up to the session
 limit ask the storage manager for ids, are parked behind an exclusive session,
 take and return update permits, while the checkpoint thread collects all permits.
 Messages to the storage manager are handled one at a time.
 */
module Admission {
  import opened Tally
  import opened TrMgr

  const MAX_SESSIONS_NUMBER := 50

  /** Where a session is between the begin and the end of a transaction. */
  datatype Phase =
    | Outside
    | Asking(ro: bool, excl: bool)              // about to send message 1
    | Parked(ro: bool, excl: bool)              // told to come again: waits on its semaphore
    | Waking(trid: int)                         // exclusive: has an id, waits on its semaphore
    | Entered(trid: int, ro: bool, excl: bool)  // has an id, permit not taken yet
    | Running(trid: int, ro: bool, excl: bool)
    | Checkpointing(trid: int, excl: bool)      // commit with checkpoint: permit returned early
    | Closing(permit: bool)                     // id returned, permit possibly still held
    | Failed                                    // no id was left, or the id table was corrupt

  datatype Checkpointer = Resting | Collecting(got: nat) | Body | Returning(left: nat)

  datatype State = State(phases: seq<Phase>, sm: Sm, free: int, ck: Checkpointer)

  ghost predicate Init(s: State) {
    && |s.phases| <= MAX_SESSIONS_NUMBER && |s.sm.sems| == |s.phases|
    && (forall j :: 0 <= j < |s.phases| ==> s.phases[j] == Outside)
    && (forall j :: 0 <= j < |s.sm.sems| ==> s.sm.sems[j] == 0)
    && |s.sm.ids| == CHARISMA_MAX_TRNS_NUMBER
    && (forall i :: 0 <= i < CHARISMA_MAX_TRNS_NUMBER ==> s.sm.ids[i] == i)
    && s.sm.roCount == 0 && s.sm.exclusive == NO_SESSION && s.sm.waitList == []
    && s.free == CHARISMA_MAX_TRNS_NUMBER && s.ck == Resting
  }

  // ------------------------------------------------------------------ steps

  predicate Holder(p: Phase) { p.Waking? || p.Entered? || p.Running? || p.Checkpointing? }
  predicate RoHolder(p: Phase) { (p.Entered? || p.Running?) && p.ro }
  predicate Updater(p: Phase) { Holder(p) && !RoHolder(p) }
  predicate Exclusive(p: Phase) { p.Waking? || ((p.Entered? || p.Running? || p.Checkpointing?) && p.excl) }
  predicate HasPermit(p: Phase) { (p.Running? && !p.ro) || (p.Closing? && p.permit) }

  function CkHeld(ck: Checkpointer): nat {
    match ck
    case Resting => 0
    case Collecting(n) => n
    case Body => CHARISMA_MAX_TRNS_NUMBER
    case Returning(n) => n
  }

  datatype Move =
    | Begin(session: nat, ro: bool, excl: bool)
    | Next(session: nat)
    | CommitWithCheckpoint(session: nat)
    | Checkpoint

  ghost predicate Shape(s: State) {
    Known(s.sm) && |s.sm.sems| == |s.phases|
  }

  /** Log-less mode excludes read-only mode. */
  ghost predicate Enabled(s: State, m: Move) {
    Shape(s) &&
    match m
    case Begin(j, ro, excl) => j < |s.phases| && s.phases[j].Outside? && !(ro && excl)
    case Next(j) =>
      j < |s.phases| &&
      (match s.phases[j]
       case Outside => false
       case Parked(_, _) => s.sm.sems[j] > 0
       case Waking(_) => s.sm.sems[j] > 0
       case Entered(_, ro, _) => ro || s.free > 0
       case Failed => false
       case _ => true)
    case CommitWithCheckpoint(j) => j < |s.phases| && s.phases[j].Running? && !s.phases[j].ro
    case Checkpoint => !(s.ck.Collecting? && s.ck.got < CHARISMA_MAX_TRNS_NUMBER && s.free <= 0)
  }

  function At(s: State, j: nat, p: Phase): State
    requires j < |s.phases|
  {
    s.(phases := s.phases[j := p])
  }

  function Lowered(sm: Sm, j: nat): Sm
    requires j < |sm.sems|
  {
    sm.(sems := sm.sems[j := sm.sems[j] - 1])
  }

  ghost function AskStep(s: State, j: nat): State
    requires Shape(s) && j < |s.phases| && s.phases[j].Asking?
  {
    var (sm, answer) := Asked(s.sm, j, s.phases[j].ro, s.phases[j].excl);
    var p := if answer.again then Parked(s.phases[j].ro, s.phases[j].excl)
             else if answer.trid == -1 then Failed
             else if s.phases[j].excl then Waking(answer.trid)
             else Entered(answer.trid, s.phases[j].ro, false);
    At(s, j, p).(sm := sm)
  }

  ghost function GiveStep(s: State, j: nat, ro: bool, permit: bool): State
    requires Shape(s) && j < |s.phases| && (s.phases[j].Running? || s.phases[j].Checkpointing?)
  {
    match Gave(s.sm, j, s.phases[j].trid, ro)
    case Released(sm) => At(s, j, Closing(permit)).(sm := sm)
    case DoubleIdentifier => At(s, j, Failed)
  }

  ghost function NextStep(s: State, j: nat): State
    requires Enabled(s, Next(j))
  {
    match s.phases[j]
    case Asking(_, _) => AskStep(s, j)
    case Parked(ro, excl) => At(s, j, Asking(ro, excl)).(sm := Lowered(s.sm, j))
    case Waking(trid) => At(s, j, Entered(trid, false, true)).(sm := Lowered(s.sm, j))
    case Entered(trid, ro, excl) => At(s, j, Running(trid, ro, excl)).(free := if ro then s.free else s.free - 1)
    case Running(_, ro, _) => GiveStep(s, j, ro, !ro)
    case Checkpointing(_, _) => GiveStep(s, j, false, false)
    case Closing(permit) => At(s, j, Outside).(free := if permit then s.free + 1 else s.free)
  }

  function CkStep(s: State): State {
    match s.ck
    case Resting => s.(ck := Collecting(0))
    case Collecting(n) =>
      if n < CHARISMA_MAX_TRNS_NUMBER then s.(ck := Collecting(n + 1), free := s.free - 1) else s.(ck := Body)
    case Body => s.(ck := Returning(CHARISMA_MAX_TRNS_NUMBER))
    case Returning(n) => if n > 0 then s.(ck := Returning(n - 1), free := s.free + 1) else s.(ck := Resting)
  }

  ghost function Apply(s: State, m: Move): State
    requires Enabled(s, m)
  {
    match m
    case Begin(j, ro, excl) => At(s, j, Asking(ro, excl))
    case Next(j) => NextStep(s, j)
    case CommitWithCheckpoint(j) =>
      At(s, j, Checkpointing(s.phases[j].trid, s.phases[j].excl)).(free := s.free + 1)
    case Checkpoint => CkStep(s)
  }

  ghost predicate Run(states: seq<State>, moves: seq<Move>) {
    && |states| == |moves| + 1 && Init(states[0])
    && forall n :: 0 <= n < |moves| ==> Enabled(states[n], moves[n]) && states[n + 1] == Apply(states[n], moves[n])
  }

  // ------------------------------------------------------------------ invariant

  predicate Unique(list: seq<int>) {
    forall a, b :: 0 <= a < b < |list| ==> list[a] != list[b]
  }

  predicate HeldBy(ps: seq<Phase>, j: int, v: int) {
    0 <= j < |ps| && Holder(ps[j]) && ps[j].trid == v
  }

  /** Free ids and held ids partition the id range, each id once. */
  ghost predicate IdInv(ps: seq<Phase>, ids: seq<int>) {
    && Unique(ids)
    && (forall a :: 0 <= a < |ids| ==> ValidId(ids[a]))
    && (forall j :: 0 <= j < |ps| && Holder(ps[j]) ==> ValidId(ps[j].trid) && ps[j].trid !in ids)
    && (forall i, j, v :: HeldBy(ps, i, v) && HeldBy(ps, j, v) ==> i == j)
    && (forall v :: ValidId(v) && v !in ids ==> exists j :: HeldBy(ps, j, v))
    && |ids| + Count(ps, Holder) == CHARISMA_MAX_TRNS_NUMBER
  }

  ghost predicate CountInv(ps: seq<Phase>, sm: Sm) {
    sm.roCount == Count(ps, RoHolder) && ActiveUpdaters(sm) == Count(ps, Updater)
  }

  /** The exclusive session is the only one with that right, and once woken the only updater. */
  ghost predicate ExclusiveInv(ps: seq<Phase>, sm: Sm) {
    && (sm.exclusive == NO_SESSION ==> sm.waitList == [])
    && (sm.exclusive != NO_SESSION ==>
          0 <= sm.exclusive < |ps| && Exclusive(ps[sm.exclusive]) &&
          (!ps[sm.exclusive].Waking? ==> Count(ps, Updater) == 1))
    && (forall j :: 0 <= j < |ps| && Exclusive(ps[j]) ==> j == sm.exclusive)
  }

  /** A parked session is on the list once or has been woken once; nobody else has a pending wake-up. */
  ghost predicate ParkInv(ps: seq<Phase>, sm: Sm)
    requires |sm.sems| == |ps|
  {
    && Unique(sm.waitList)
    && (forall n :: 0 <= n < |sm.waitList| ==> 0 <= sm.waitList[n] < |ps| && ps[sm.waitList[n]].Parked?)
    && (forall j :: 0 <= j < |ps| ==> sm.sems[j] == Pending(ps, sm.waitList, j))
  }

  /** The value of session j's semaphore, as a function of the rest of the state. */
  function Pending(ps: seq<Phase>, waitList: seq<int>, j: nat): int
    requires j < |ps|
  {
    if ps[j].Parked? then Bit(j !in waitList)
    else if ps[j].Waking? then Bit(Count(ps, Updater) == 1)
    else 0
  }

  ghost predicate PermitInv(ps: seq<Phase>, free: int, ck: Checkpointer) {
    && free >= 0 && CkHeld(ck) <= CHARISMA_MAX_TRNS_NUMBER
    && free + Count(ps, HasPermit) + CkHeld(ck) == CHARISMA_MAX_TRNS_NUMBER
  }

  predicate FlagsOk(p: Phase) {
    && ((p.Asking? || p.Entered? || p.Running?) ==> !(p.ro && p.excl))
    && (p.Parked? ==> !p.ro)
    && !p.Failed?
  }

  ghost predicate FlagInv(ps: seq<Phase>) {
    |ps| <= MAX_SESSIONS_NUMBER && forall j :: 0 <= j < |ps| ==> FlagsOk(ps[j])
  }

  ghost predicate Inv(s: State) {
    && Shape(s) && FlagInv(s.phases) && IdInv(s.phases, s.sm.ids) && CountInv(s.phases, s.sm)
    && ExclusiveInv(s.phases, s.sm) && ParkInv(s.phases, s.sm) && PermitInv(s.phases, s.free, s.ck)
  }
}
