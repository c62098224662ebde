/**
 The storage manager's transaction manager: the table of free transaction ids, the
 exclusive mode and the list of sessions parked behind it, with the two message
 handlers that drive them. `Sm` is the state as a value; `TransactionManager` is the
 code that updates it in place, proved against the functions on `Sm`.
 */
module TrMgr {

  const CHARISMA_MAX_TRNS_NUMBER := 50
  const NO_SESSION := -1

  /** `sems[j]` is the waiting semaphore of session j. */
  datatype Sm = Sm(ids: seq<int>, roCount: int, exclusive: int, waitList: seq<int>, sems: seq<int>)

  /** Answer to message 1: come again later, or the id (-1 when there is none). */
  datatype Answer = Answer(again: bool, trid: int)

  /** Answer to message 2: the new state, or the fatal error of the id table. */
  datatype Release = Released(sm: Sm) | DoubleIdentifier

  /** The sessions that may have to be woken have a semaphore. */
  predicate Known(sm: Sm) {
    && NO_SESSION <= sm.exclusive < |sm.sems|
    && forall n :: 0 <= n < |sm.waitList| ==> 0 <= sm.waitList[n] < |sm.sems|
  }

  function ActiveUpdaters(sm: Sm): int {
    CHARISMA_MAX_TRNS_NUMBER - |sm.ids| - sm.roCount
  }

  function Raised(sems: seq<int>, sid: int): seq<int>
    requires 0 <= sid < |sems|
  {
    sems[sid := sems[sid] + 1]
  }

  /** Raise the semaphore of every listed session, in list order. */
  function RaisedAll(sems: seq<int>, list: seq<int>): (r: seq<int>)
    requires forall n :: 0 <= n < |list| ==> 0 <= list[n] < |sems|
    ensures |r| == |sems|
  {
    if list == [] then sems else Raised(RaisedAll(sems, list[..|list| - 1]), list[|list| - 1])
  }

  /** Wake the exclusive session when it is the only updater left. */
  function Started(sm: Sm): Sm
    requires Known(sm) && sm.exclusive != NO_SESSION
  {
    if ActiveUpdaters(sm) == 1 then sm.(sems := Raised(sm.sems, sm.exclusive)) else sm
  }

  /** Leave the exclusive mode: wake everyone parked. */
  function Exited(sm: Sm): Sm
    requires Known(sm)
  {
    sm.(sems := RaisedAll(sm.sems, sm.waitList), waitList := [], exclusive := NO_SESSION)
  }

  function Taken(sm: Sm, ro: bool): Sm {
    if sm.ids == [] then sm
    else sm.(ids := sm.ids[..|sm.ids| - 1], roCount := sm.roCount + (if ro then 1 else 0))
  }

  /** Message 1: ask for a transaction id. */
  function Asked(sm: Sm, sid: nat, ro: bool, exclusive: bool): (Sm, Answer)
    requires Known(sm) && sid < |sm.sems|
  {
    if sm.exclusive != NO_SESSION && !ro then
      (sm.(waitList := sm.waitList + [sid]), Answer(true, -1))
    else
      var id := if sm.ids == [] then -1 else sm.ids[|sm.ids| - 1];
      ((if exclusive && id != -1 then Started(Taken(sm, ro).(exclusive := sid)) else Taken(sm, ro)), Answer(false, id))
  }

  predicate ValidId(trid: int) {
    0 <= trid < CHARISMA_MAX_TRNS_NUMBER
  }

  function Given(sm: Sm, trid: int, ro: bool): Sm {
    if ValidId(trid)
    then sm.(ids := sm.ids + [trid], roCount := sm.roCount - (if ro then 1 else 0))
    else sm
  }

  /** Message 2: give a transaction id back. */
  function Gave(sm: Sm, sid: nat, trid: int, ro: bool): Release
    requires Known(sm)
  {
    if ValidId(trid) && trid in sm.ids then DoubleIdentifier
    else if ro then Released(Given(sm, trid, ro))
    else if sid == sm.exclusive then Released(Exited(Given(sm, trid, ro)))
    else if sm.exclusive != NO_SESSION then Released(Started(Given(sm, trid, ro)))
    else Released(Given(sm, trid, ro))
  }

  // ------------------------------------------------------------------ the code

  class TransactionManager {
    var ids: seq<int>
    var roCount: int
    var exclusive: int
    var waitList: seq<int>
    var sems: seq<int>

    function View(): Sm
      reads this
    {
      Sm(ids, roCount, exclusive, waitList, sems)
    }

    /** Fill the table of free ids; `sessions` waiting semaphores start down. */
    constructor (sessions: nat)
      ensures |ids| == CHARISMA_MAX_TRNS_NUMBER
      ensures forall i :: 0 <= i < CHARISMA_MAX_TRNS_NUMBER ==> ids[i] == i
      ensures roCount == 0 && exclusive == NO_SESSION && waitList == []
      ensures sems == seq(sessions, i => 0)
      ensures Known(View())
    {
      roCount, exclusive, waitList := 0, NO_SESSION, [];
      sems := seq(sessions, i => 0);
      ids := [];
      new;
      var i := 0;
      while i < CHARISMA_MAX_TRNS_NUMBER
        invariant 0 <= i <= CHARISMA_MAX_TRNS_NUMBER && |ids| == i
        invariant forall j :: 0 <= j < i ==> ids[j] == j
        invariant roCount == 0 && exclusive == NO_SESSION && waitList == [] && sems == seq(sessions, i => 0)
      {
        ids := ids + [i];
        i := i + 1;
      }
    }

    method GetTransactionId(ro: bool) returns (id: int)
      modifies this`ids, this`roCount
      ensures View() == Taken(old(View()), ro)
      ensures id == if old(ids) == [] then -1 else old(ids)[|old(ids)| - 1]
    {
      if |ids| == 0 {
        id := -1;
      } else {
        id := ids[|ids| - 1];
        ids := ids[..|ids| - 1];
        if ro { roCount := roCount + 1; }
      }
    }

    /** Give an id back after looking for it among the free ones. */
    method GiveTransactionId(trid: int, ro: bool) returns (double: bool)
      modifies this`ids, this`roCount
      ensures double <==> ValidId(trid) && trid in old(ids)
      ensures View() == if double then old(View()) else Given(old(View()), trid, ro)
    {
      double := false;
      if !(trid < 0 || trid >= CHARISMA_MAX_TRNS_NUMBER) {
        var i := 0;
        while i < |ids|
          invariant 0 <= i <= |ids| && ids == old(ids) && roCount == old(roCount)
          invariant forall j :: 0 <= j < i ==> ids[j] != trid
        {
          if ids[i] == trid { return true; }
          i := i + 1;
        }
        ids := ids + [trid];
        if ro { roCount := roCount - 1; }
      }
    }

    method XmTryToStartExclusive()
      requires Known(View()) && exclusive != NO_SESSION
      modifies this`sems
      ensures View() == Started(old(View()))
    {
      if CHARISMA_MAX_TRNS_NUMBER - |ids| - roCount == 1 {
        sems := sems[exclusive := sems[exclusive] + 1];
      }
    }

    method XmExitExclusiveMode()
      requires Known(View())
      modifies this`sems, this`waitList, this`exclusive
      ensures View() == Exited(old(View()))
    {
      var i := 0;
      while i < |waitList|
        invariant 0 <= i <= |waitList| && waitList == old(waitList) && exclusive == old(exclusive)
        invariant sems == RaisedAll(old(sems), waitList[..i])
      {
        assert waitList[..i + 1][..i] == waitList[..i];
        sems := sems[waitList[i] := sems[waitList[i]] + 1];
        i := i + 1;
      }
      assert waitList[..i] == waitList;
      waitList := [];
      exclusive := NO_SESSION;
    }

    /** Case 1 of the message handler. */
    method HandleAsk(sid: nat, ro: bool, wantExclusive: bool) returns (answer: Answer)
      requires Known(View()) && sid < |sems|
      modifies this
      ensures (View(), answer) == Asked(old(View()), sid, ro, wantExclusive)
      ensures Known(View())
    {
      if exclusive != NO_SESSION && !ro {
        waitList := waitList + [sid];
        return Answer(true, -1);
      }
      var trid := GetTransactionId(ro);
      if trid != -1 {
        if wantExclusive {
          exclusive := sid;
          XmTryToStartExclusive();
        }
      }
      return Answer(false, trid);
    }

    /** Case 2 of the message handler. */
    method HandleGive(sid: nat, trid: int, ro: bool) returns (double: bool)
      requires Known(View())
      modifies this
      ensures double <==> Gave(old(View()), sid, trid, ro).DoubleIdentifier?
      ensures !double ==> Gave(old(View()), sid, trid, ro) == Released(View()) && Known(View())
    {
      var exclSid := exclusive;
      double := GiveTransactionId(trid, ro);
      if double || ro { return; }
      if sid == exclSid {
        XmExitExclusiveMode();
      } else if exclSid != NO_SESSION {
        XmTryToStartExclusive();
      }
    }
  }
}
