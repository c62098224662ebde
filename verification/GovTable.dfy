/**
 The governor's table of sessions and databases (info_table): the stack of free session
 ids, the two tables, and the cells of shared memory that mirror them.
 */
module GovTable {
  import opened Sp

  type DbName = seq<Byte>

  const MAX_SESSIONS: int := 50
  const MAX_DBS: int := 10

  datatype Mode = Working | Shutdown | Special | Down

  datatype Session = Session(db: DbName, pid: int, isChild: bool)

  datatype SessVar = SessVar(idfree: int, stop: bool)

  datatype DbVar = DbVar(name: DbName, mode: Mode, pid: int)

  /** Every id below n is free or in use, not both, and free at most once. */
  ghost predicate Partition(ids: seq<int>, live: set<int>, n: nat) {
    && (forall i :: 0 <= i < |ids| ==> 0 <= ids[i] < n && ids[i] !in live)
    && (forall i, j :: 0 <= i < j < |ids| ==> ids[i] != ids[j])
    && (forall id :: id in live ==> 0 <= id < n)
    && (forall id :: 0 <= id < n ==> id in ids || id in live)
  }

  lemma TakeId(ids: seq<int>, id: int, live: set<int>, n: nat)
    requires Partition(ids + [id], live, n)
    ensures 0 <= id < n && id !in live && Partition(ids, live + {id}, n)
  {
    var all := ids + [id];
    assert all[|ids|] == id;
    assert forall i :: 0 <= i < |ids| ==> all[i] == ids[i];
  }

  lemma {:induction false} DistinctSize(ids: seq<int>)
    requires forall i, j :: 0 <= i < j < |ids| ==> ids[i] != ids[j]
    ensures |set id | id in ids| == |ids|
  {
    if ids != [] {
      var rest := ids[1..];
      DistinctSize(rest);
      assert (set id | id in ids) == {ids[0]} + (set id | id in rest);
      assert ids[0] !in rest;
    }
  }

  lemma Inhabited(s: set<int>)
    requires |s| > 0
    ensures exists x :: x in s
  {
    if forall x :: x !in s {
      assert false;
    }
  }

  function Range(n: nat): (r: set<int>)
    ensures forall id :: id in r <==> 0 <= id < n
    ensures |r| == n
  {
    if n == 0 then {} else Range(n - 1) + {n - 1}
  }

  /** Free ids and ids in use add up to the number of ids. */
  lemma {:induction false} FreeAndLive(ids: seq<int>, live: set<int>, n: nat)
    requires Partition(ids, live, n)
    ensures |ids| + |live| == n
  {
    DistinctSize(ids);
    var free := set id | id in ids;
    assert free !! live;
    assert |free + live| == |free| + |live|;
    assert Range(n) == free + live;
  }

  function SessionsOn(sessions: map<int, Session>, db: DbName): set<int> {
    set id | id in sessions && sessions[id].db == db
  }

  function Others(sessions: map<int, Session>, db: DbName): map<int, Session> {
    map id | id in sessions && sessions[id].db != db :: sessions[id]
  }

  predicate Marked(slot: DbVar) {
    slot.name != [] && slot.mode == Shutdown
  }

  predicate AnyMarked(slots: seq<DbVar>, n: nat)
    requires n <= |slots|
  {
    exists k :: 0 <= k < n && Marked(slots[k])
  }

  lemma AnyMarkedStep(slots: seq<DbVar>, n: nat)
    requires n < |slots|
    ensures AnyMarked(slots, n + 1) <==> AnyMarked(slots, n) || Marked(slots[n])
  {
  }

  ghost predicate FirstSlot(slots: seq<DbVar>, db: DbName, i: int) {
    0 <= i < |slots| && slots[i].name == db && forall k :: 0 <= k < i ==> slots[k].name != db
  }

  /** The first cell of this database, if there is one, is down, and the others are as before. */
  ghost predicate Closed(slots: seq<DbVar>, db: DbName, after: seq<DbVar>) {
    && |after| == |slots|
    && (forall i :: FirstSlot(slots, db, i) ==> after == slots[i := DbVar(db, Down, -1)])
    && ((forall i :: 0 <= i < |slots| ==> slots[i].name != db) ==> after == slots)
  }

  lemma {:induction false} SlotOrNone(slots: seq<DbVar>, db: DbName, n: nat) returns (i: int)
    requires n <= |slots| && forall k :: 0 <= k < n ==> slots[k].name != db
    ensures FirstSlot(slots, db, i) || forall k :: 0 <= k < |slots| ==> slots[k].name != db
    decreases |slots| - n
  {
    i := n;
    if n < |slots| && slots[n].name != db {
      i := SlotOrNone(slots, db, n + 1);
    }
  }

  /** The first cells of the databases that were registered before and are not after are
      down, and the other cells are as before. */
  ghost predicate Swept(slots: seq<DbVar>, before: set<DbName>, after: set<DbName>, now: seq<DbVar>) {
    && |now| == |slots|
    && forall k :: 0 <= k < |slots| ==>
         now[k] == if FirstSlot(slots, slots[k].name, k) && slots[k].name in before - after
                   then DbVar(slots[k].name, Down, -1) else slots[k]
  }

  /** Closing one more. */
  lemma SweptOn(slots: seq<DbVar>, before: set<DbName>, mid: set<DbName>, now: seq<DbVar>, db: DbName, next: seq<DbVar>)
    requires Swept(slots, before, mid, now) && mid <= before && db in mid && Closed(now, db, next)
    ensures Swept(slots, before, mid - {db}, next)
  {
    assert forall k :: 0 <= k < |slots| ==> now[k].name == slots[k].name;
    forall k ensures FirstSlot(now, db, k) <==> FirstSlot(slots, db, k) {}
    var i := SlotOrNone(now, db, 0);
  }

  /** The first cell of a database is not above any of its cells. */
  lemma ClosedBelow(slots: seq<DbVar>, db: DbName, i: nat, next: seq<DbVar>)
    requires Closed(slots, db, next) && i < |slots| && slots[i].name == db
    ensures forall k :: i < k < |slots| ==> next[k] == slots[k]
  {
    var j := SlotOrNone(slots, db, 0);
  }

  /** Some databases are gone, and exactly their sessions with them. */
  ghost predicate Left(dbs: map<DbName, int>, ss: map<int, Session>, dbs': map<DbName, int>, ss': map<int, Session>) {
    && (forall db :: db in dbs' ==> db in dbs && dbs'[db] == dbs[db])
    && (forall id :: id in ss' <==> id in ss && ss[id].db in dbs')
    && (forall id :: id in ss' ==> ss'[id] == ss[id])
  }

  /** One more database gone, or none if it was not there. */
  lemma LeftOn(dbs: map<DbName, int>, ss: map<int, Session>, dbs': map<DbName, int>, ss': map<int, Session>, db: DbName)
    requires Left(dbs, ss, dbs', ss')
    ensures Left(dbs, ss, dbs' - {db}, Others(ss', db))
  {
    forall id | id in ss' ensures id in Others(ss', db) <==> ss[id].db in dbs' - {db} {
      assert ss'[id] == ss[id];
    }
  }

  lemma GoneOn(ss: map<int, Session>, ss': map<int, Session>, db: DbName)
    requires forall id :: id in ss' ==> id in ss
    ensures ss.Keys - Others(ss', db).Keys == (ss.Keys - ss'.Keys) + SessionsOn(ss', db)
  {
    forall id ensures id in ss.Keys - Others(ss', db).Keys <==> id in (ss.Keys - ss'.Keys) + SessionsOn(ss', db) {
      assert id in Others(ss', db).Keys <==> id in Others(ss', db);
    }
  }

  lemma NotThere(dbs: map<DbName, int>, db: DbName)
    requires db !in dbs
    ensures dbs - {db} == dbs
  {
  }

  /** The cells of the sessions that are gone are zero, and the others as before. */
  ghost predicate Cleared(cells: seq<SessVar>, gone: set<int>, now: seq<SessVar>) {
    && |now| == |cells|
    && forall id :: 0 <= id < |cells| ==> now[id] == if id in gone then SessVar(0, false) else cells[id]
  }

  lemma ClearedOn(cells: seq<SessVar>, gone: set<int>, now: seq<SessVar>, more: set<int>, next: seq<SessVar>)
    requires Cleared(cells, gone, now) && Cleared(now, more, next)
    ensures Cleared(cells, gone + more, next)
  {
  }

  class InfoTable {
    var ids: seq<int>
    var sessions: map<int, Session>
    var databases: map<DbName, int>
    var sessVars: seq<SessVar>
    var dbVars: seq<DbVar>

    /** The id range is partitioned, every session's database is registered, and the
        shared cell of an id is zero exactly when it is free. */
    ghost predicate Valid()
      reads this
    {
      && Partition(ids, sessions.Keys, MAX_SESSIONS)
      && (forall id :: id in sessions ==> sessions[id].db in databases)
      && |sessVars| == MAX_SESSIONS && |dbVars| == MAX_DBS
      && (forall id :: 0 <= id < MAX_SESSIONS ==> (sessVars[id].idfree == 0 <==> id !in sessions))
    }

    constructor (configured: seq<DbVar>)
      requires |configured| == MAX_DBS
      ensures Valid() && sessions == map[] && databases == map[] && dbVars == configured
    {
      ids := seq(MAX_SESSIONS, i => i);
      sessions, databases := map[], map[];
      sessVars := seq(MAX_SESSIONS, _ => SessVar(0, false));
      dbVars := configured;
      new;
      forall id | 0 <= id < MAX_SESSIONS ensures id in ids {
        assert ids[id] == id;
      }
    }

    /** A session process announcing in shared memory that it is through. */
    method SessionFinished(sid: int)
      requires Valid() && sid in sessions
      modifies this`sessVars
      ensures Valid() && sessVars == old(sessVars)[sid := old(sessVars)[sid].(idfree := 2)]
    {
      sessVars := sessVars[sid := sessVars[sid].(idfree := 2)];
    }

    method GetId() returns (id: int)
      modifies this`ids
      ensures if old(ids) == [] then id == -1 && ids == [] else old(ids) == ids + [id]
    {
      if ids == [] {
        return -1;
      }
      id := ids[|ids| - 1];
      ids := ids[..|ids| - 1];
    }

    method WaitEraseSession(sid: int)
      requires Valid()
      modifies this`ids, this`sessions, this`sessVars
      ensures Valid() && sessions == old(sessions) - {sid}
      ensures sid !in old(sessions) ==> ids == old(ids) && sessVars == old(sessVars)
      ensures sid in old(sessions) ==> ids == old(ids) + [sid] && sessVars == old(sessVars)[sid := SessVar(0, false)]
    {
      if sid in sessions {
        sessions := sessions - {sid};
        ids := ids + [sid];
        sessVars := sessVars[sid := SessVar(0, false)];
      }
    }

    method StopSession(sid: int)
      requires Valid() && sid in sessions
      modifies this`ids, this`sessions, this`sessVars
      ensures Valid() && sessions == old(sessions) - {sid} && ids == old(ids) + [sid]
      ensures sessVars == old(sessVars)[sid := SessVar(0, false)]
    {
      sessVars := sessVars[sid := sessVars[sid].(stop := true)];
      WaitEraseSession(sid);
    }

    /** The first cell with this database name, or the number of cells. */
    method FindSlot(db: DbName) returns (i: nat)
      requires |dbVars| == MAX_DBS
      ensures i <= MAX_DBS && (i < MAX_DBS ==> FirstSlot(dbVars, db, i))
      ensures forall k :: 0 <= k < i ==> dbVars[k].name != db
    {
      i := 0;
      while i < MAX_DBS
        invariant i <= MAX_DBS && forall k :: 0 <= k < i ==> dbVars[k].name != db
      {
        if dbVars[i].name == db {
          return;
        }
        i := i + 1;
      }
    }

    /** Whether the shared cells say that the database takes such sessions. */
    ghost predicate Accepts(db: DbName, special: bool)
      reads this
    {
      exists i :: FirstSlot(dbVars, db, i) && (dbVars[i].mode == Working || (special && dbVars[i].mode == Special))
    }

    method CheckMode(db: DbName, special: bool) returns (ok: bool)
      requires |dbVars| == MAX_DBS
      ensures ok == Accepts(db, special)
    {
      var i := FindSlot(db);
      ok := i < MAX_DBS && (dbVars[i].mode == Working || (special && dbVars[i].mode == Special));
    }

    /** Registers a session: -4 the process is gone, -1 the database does not take the
        session, -2 all ids are in use. An id is never handed out twice, so that -3 never
        comes back. */
    method InsertSession(alive: bool, pid: int, db: DbName, isChild: bool, special: bool) returns (rc: int, sid: int)
      requires Valid()
      modifies this
      ensures Valid() && databases == old(databases) && dbVars == old(dbVars)
      ensures rc == -4 <==> !alive
      ensures rc == -1 <==> alive && !(old(Accepts(db, special)) && db in databases)
      ensures rc == -2 <==> alive && old(Accepts(db, special)) && db in databases && |old(sessions)| == MAX_SESSIONS
      ensures rc in {0, -1, -2, -4}
      ensures rc == 0 ==>
        && 0 <= sid < MAX_SESSIONS && sid !in old(sessions) && sessions == old(sessions)[sid := Session(db, pid, isChild)]
        && old(ids) == ids + [sid] && sessVars == old(sessVars)[sid := SessVar(1, false)]
      ensures rc != 0 ==> sessions == old(sessions) && ids == old(ids) && sessVars == old(sessVars)
    {
      sid := -1;
      if !alive {
        return -4, sid;
      }
      var ok := CheckMode(db, special);
      if !ok || db !in databases {
        return -1, sid;
      }
      FreeAndLive(ids, sessions.Keys, MAX_SESSIONS);
      assert |sessions| == |sessions.Keys|;
      sid := GetId();
      if old(ids) != [] {
        TakeId(ids, sid, sessions.Keys, MAX_SESSIONS);
        assert sessions[sid := Session(db, pid, isChild)].Keys == sessions.Keys + {sid};
      }
      if sid == -1 {
        return -2, sid;
      }
      if sid in sessions {
        ids := ids + [sid];
        return -3, sid;
      }
      sessions := sessions[sid := Session(db, pid, isChild)];
      sessVars := sessVars[sid := SessVar(1, false)];
      rc := 0;
    }

    /** Registers a database: -4 the process is gone, -2 there is no cell for it, -3 it is
        registered already, and then its cell is lost. */
    method InsertDatabase(alive: bool, pid: int, db: DbName, special: bool) returns (rc: int)
      requires Valid()
      modifies this`databases, this`dbVars
      ensures Valid()
      ensures rc == -4 <==> !alive
      ensures rc == -2 <==> alive && forall k :: 0 <= k < MAX_DBS ==> old(dbVars)[k].name != db
      ensures rc in {0, -2, -3, -4} && (rc == -3 ==> db in databases)
      ensures databases == (if rc == 0 then old(databases)[db := pid] else old(databases))
      ensures rc == 0 ==> db !in old(databases)
      ensures rc == -2 || rc == -4 ==> dbVars == old(dbVars)
      ensures rc == 0 || rc == -3 ==> exists i ::
        && FirstSlot(old(dbVars), db, i)
        && dbVars == old(dbVars)[i := if rc == 0 then DbVar(db, if special then Special else Working, pid) else DbVar([], Down, -1)]
    {
      if !alive {
        return -4;
      }
      var i := FindSlot(db);
      if i == MAX_DBS {
        return -2;
      }
      dbVars := dbVars[i := DbVar(dbVars[i].name, if special then Special else Working, pid)];
      if db in databases {
        dbVars := dbVars[i := DbVar([], Down, -1)];
        return -3;
      }
      databases := databases[db := pid];
      rc := 0;
    }

    method EraseDatabase(db: DbName)
      requires |dbVars| == MAX_DBS
      modifies this`databases, this`dbVars
      ensures databases == old(databases) - {db}
      ensures Closed(old(dbVars), db, dbVars)
    {
      var i := FindSlot(db);
      if i < MAX_DBS {
        dbVars := dbVars[i := DbVar(db, Down, -1)];
      }
      databases := databases - {db};
    }

    /** Takes back the ids of all sessions that are through. */
    method PutAllFreeSids()
      requires Valid()
      modifies this`ids, this`sessions, this`sessVars
      ensures Valid() && forall id :: id in sessions <==> id in old(sessions) && old(sessVars)[id].idfree != 2
      ensures forall id :: id in sessions ==> sessions[id] == old(sessions)[id]
      ensures Cleared(old(sessVars), old(sessions).Keys - sessions.Keys, sessVars)
    {
      var i := 0;
      while i < MAX_SESSIONS
        invariant 0 <= i <= MAX_SESSIONS && Valid()
        invariant forall id :: id in sessions <==> id in old(sessions) && (id < i ==> old(sessVars)[id].idfree != 2)
        invariant forall id :: id in sessions ==> sessions[id] == old(sessions)[id]
        invariant Cleared(old(sessVars), old(sessions).Keys - sessions.Keys, sessVars)
      {
        if sessVars[i].idfree == 2 {
          WaitEraseSession(i);
        }
        i := i + 1;
      }
    }

    /** Stops these sessions one by one. */
    method StopEach(victims: set<int>)
      requires Valid() && victims <= sessions.Keys
      modifies this`ids, this`sessions, this`sessVars
      ensures Valid() && sessions == old(sessions) - victims && Cleared(old(sessVars), victims, sessVars)
    {
      var left := victims;
      while |left| > 0
        invariant Valid() && left <= sessions.Keys && left <= victims
        invariant sessions == old(sessions) - (victims - left) && Cleared(old(sessVars), victims - left, sessVars)
        decreases |left|
      {
        Inhabited(left);
        var id :| id in left;
        StopSession(id);
        left := left - {id};
      }
      assert victims - left == victims;
    }

    method StopSessions(db: DbName)
      requires Valid()
      modifies this`ids, this`sessions, this`sessVars
      ensures Valid() && sessions == Others(old(sessions), db)
      ensures Cleared(old(sessVars), SessionsOn(old(sessions), db), sessVars)
    {
      StopEach(SessionsOn(sessions, db));
    }

    method StopAllSessions()
      requires Valid()
      modifies this`ids, this`sessions, this`sessVars
      ensures Valid() && sessions == map[] && Cleared(old(sessVars), old(sessions).Keys, sessVars)
    {
      StopEach(sessions.Keys);
    }

    /** Shuts a database down; false stands for the exception that it is not registered.
        The table stays consistent exactly if no session was left on the database. */
    method StopDatabase(db: DbName) returns (ok: bool)
      requires Valid()
      modifies this`databases, this`dbVars
      ensures ok == (db in old(databases)) && databases == old(databases) - {db}
      ensures !ok ==> dbVars == old(dbVars)
      ensures ok ==> Closed(old(dbVars), db, dbVars)
      ensures Valid() <==> !ok || SessionsOn(sessions, db) == {}
    {
      ok := db in databases;
      if ok {
        EraseDatabase(db);
        var orphans := SessionsOn(sessions, db);
        if |orphans| > 0 {
          Inhabited(orphans);
          var id :| id in orphans;
          assert sessions[id].db !in databases;
        } else {
          assert forall id :: id in sessions ==> id !in orphans;
        }
      }
    }

    method StopDatabases()
      requires Valid() && sessions == map[]
      modifies this`databases, this`dbVars
      ensures Valid() && databases == map[] && Swept(old(dbVars), old(databases).Keys, {}, dbVars)
    {
      var left := databases.Keys;
      while |left| > 0
        invariant Valid() && databases.Keys == left <= old(databases).Keys
        invariant Swept(old(dbVars), old(databases).Keys, left, dbVars)
        decreases |left|
      {
        var db :| db in left;
        ghost var slots := dbVars;
        var ok := StopDatabase(db);
        SweptOn(old(dbVars), old(databases).Keys, left, slots, db, dbVars);
        left := left - {db};
      }
    }

    method CheckStopGov(stop: bool) returns (rc: int)
      requires Valid()
      modifies this
      ensures Valid() && rc == (if stop then 1 else 0)
      ensures stop ==> sessions == map[] && databases == map[]
      ensures stop ==> Cleared(old(sessVars), old(sessions).Keys, sessVars) && Swept(old(dbVars), old(databases).Keys, {}, dbVars)
      ensures !stop ==> unchanged(this)
    {
      if stop {
        StopAllSessions();
        StopDatabases();
        return 1;
      }
      return 0;
    }

    /** Shuts a database down after its sessions. */
    method StopWithSessions(db: DbName) returns (ok: bool)
      requires Valid()
      modifies this
      ensures Valid() && ok == (db in old(databases)) && databases == old(databases) - {db}
      ensures sessions == Others(old(sessions), db) && Cleared(old(sessVars), SessionsOn(old(sessions), db), sessVars)
      ensures if ok then Closed(old(dbVars), db, dbVars) else dbVars == old(dbVars)
    {
      StopSessions(db);
      ok := StopDatabase(db);
    }

    /** The sweep over the cells has come to cell i: the marked databases below it are gone,
        each with its sessions, and no others. */
    ghost predicate Sweeping(dbs: map<DbName, int>, ss: map<int, Session>, cells: seq<SessVar>, slots: seq<DbVar>, i: int)
      reads this
    {
      && Valid() && |slots| == MAX_DBS && Left(dbs, ss, databases, sessions)
      && Cleared(cells, ss.Keys - sessions.Keys, sessVars) && Swept(slots, dbs.Keys, databases.Keys, dbVars)
      && (forall k :: 0 <= i <= k < MAX_DBS ==> dbVars[k] == slots[k])
      && (forall k :: 0 <= k < i && k < MAX_DBS && Marked(slots[k]) ==> slots[k].name !in databases)
      && (forall db :: db in dbs && db !in databases ==> exists k :: 0 <= k < MAX_DBS && Marked(slots[k]) && slots[k].name == db)
    }

    lemma SweepStarts()
      requires Valid()
      ensures Sweeping(databases, sessions, sessVars, dbVars, 0)
    {
    }

    lemma SweepSkips(dbs: map<DbName, int>, ss: map<int, Session>, cells: seq<SessVar>, slots: seq<DbVar>, i: nat)
      requires i < MAX_DBS && Sweeping(dbs, ss, cells, slots, i) && !Marked(slots[i])
      ensures Sweeping(dbs, ss, cells, slots, i + 1)
    {
    }

    /** One marked cell. */
    method StopMarked(i: nat, ghost dbs: map<DbName, int>, ghost ss: map<int, Session>, ghost cells: seq<SessVar>,
                      ghost slots: seq<DbVar>)
      returns (ok: bool)
      requires i < MAX_DBS && Sweeping(dbs, ss, cells, slots, i) && Marked(slots[i])
      modifies this
      ensures Sweeping(dbs, ss, cells, slots, if ok then i + 1 else i) && slots[i].name !in databases
    {
      var db := dbVars[i].name;
      ghost var slots1, cells1, dbs1, ss1 := dbVars, sessVars, databases, sessions;
      ok := StopWithSessions(db);
      LeftOn(dbs, ss, dbs1, ss1, db);
      GoneOn(ss, ss1, db);
      ClearedOn(cells, ss.Keys - ss1.Keys, cells1, SessionsOn(ss1, db), sessVars);
      if ok {
        SweptOn(slots, dbs.Keys, dbs1.Keys, slots1, db, dbVars);
        ClosedBelow(slots1, db, i, dbVars);
        assert databases.Keys == dbs1.Keys - {db};
      } else {
        NotThere(dbs1, db);
      }
    }

    /** Shuts down exactly the databases marked for it, each with its sessions first, and says
        whether there were any; false stands for the exception that a marked one is not
        registered. */
    method CheckStopDatabases() returns (ok: bool, rc: int)
      requires Valid()
      modifies this
      ensures ok ==> forall k :: 0 <= k < MAX_DBS && Marked(old(dbVars)[k]) ==> old(dbVars)[k].name !in databases
      ensures ok ==> rc == if AnyMarked(old(dbVars), MAX_DBS) then 1 else 0
      ensures !ok ==> exists k :: 0 <= k < MAX_DBS && Marked(old(dbVars)[k]) && old(dbVars)[k].name !in databases
      ensures forall db :: db in old(databases) && db !in databases ==>
        exists k :: 0 <= k < MAX_DBS && Marked(old(dbVars)[k]) && old(dbVars)[k].name == db
      ensures Valid() && Left(old(databases), old(sessions), databases, sessions)
      ensures Cleared(old(sessVars), old(sessions).Keys - sessions.Keys, sessVars)
      ensures Swept(old(dbVars), old(databases).Keys, databases.Keys, dbVars)
    {
      ok, rc := true, 0;
      var i := 0;
      ghost var dbs, ss, cells, slots := databases, sessions, sessVars, dbVars;
      SweepStarts();
      while i < MAX_DBS
        invariant 0 <= i <= MAX_DBS && Sweeping(dbs, ss, cells, slots, i)
        invariant rc == if AnyMarked(slots, i) then 1 else 0
      {
        AnyMarkedStep(slots, i);
        if dbVars[i].name != [] && dbVars[i].mode == Shutdown {
          ok := StopMarked(i, dbs, ss, cells, slots);
          if !ok {
            return;
          }
          rc := 1;
        } else {
          SweepSkips(dbs, ss, cells, slots, i);
        }
        i := i + 1;
      }
    }

    /** The runtime configuration: every registered database with its number of sessions.
        It never finds the table inconsistent. */
    method GetRc() returns (code: int, rc: map<DbName, nat>)
      requires Valid()
      ensures code == 0 && rc.Keys == databases.Keys
      ensures forall db :: db in rc ==> rc[db] == |SessionsOn(sessions, db)|
    {
      rc := map db | db in databases :: 0;
      var left := sessions.Keys;
      ghost var seen: map<int, Session> := map[];
      while |left| > 0
        invariant left <= sessions.Keys && rc.Keys == databases.Keys
        invariant seen == sessions - left
        invariant forall db :: db in rc ==> rc[db] == |SessionsOn(seen, db)|
        decreases |left|
      {
        Inhabited(left);
        var id :| id in left;
        var db := sessions[id].db;
        if db !in rc {
          return 1, rc;
        }
        SeenStep(seen, id, sessions[id]);
        seen := seen[id := sessions[id]];
        left := left - {id};
        rc := rc[db := rc[db] + 1];
      }
      assert seen == sessions;
      code := 0;
    }
  }

  lemma SeenStep(seen: map<int, Session>, id: int, s: Session)
    requires id !in seen
    ensures forall db :: |SessionsOn(seen[id := s], db)| == |SessionsOn(seen, db)| + (if db == s.db then 1 else 0)
  {
    forall db ensures |SessionsOn(seen[id := s], db)| == |SessionsOn(seen, db)| + (if db == s.db then 1 else 0) {
      assert SessionsOn(seen[id := s], db) == SessionsOn(seen, db) + (if db == s.db then {id} else {});
    }
  }

  function Sum(counts: seq<nat>): nat {
    if counts == [] then 0 else counts[0] + Sum(counts[1..])
  }

  function Counts(names: seq<DbName>, sessions: map<int, Session>): (c: seq<nat>)
    ensures |c| == |names|
  {
    if names == [] then [] else [|SessionsOn(sessions, names[0])|] + Counts(names[1..], sessions)
  }

  lemma NoSessions(sessions: map<int, Session>)
    requires forall id :: id !in sessions
    ensures |sessions| == 0
  {
    assert |sessions| == |sessions.Keys|;
    if |sessions.Keys| > 0 {
      Inhabited(sessions.Keys);
    }
  }

  /** Listed without repetition, the session counts of the registered databases add up to
      the number of sessions. */
  lemma {:induction false} CountsAddUp(names: seq<DbName>, sessions: map<int, Session>)
    requires forall i, j :: 0 <= i < j < |names| ==> names[i] != names[j]
    requires forall id :: id in sessions ==> sessions[id].db in names
    ensures Sum(Counts(names, sessions)) == |sessions|
  {
    if names == [] {
      NoSessions(sessions);
    } else {
      var db, rest := names[0], Others(sessions, names[0]);
      forall id | id in rest ensures rest[id].db in names[1..] {
        assert rest[id].db in names;
      }
      CountsAddUp(names[1..], rest);
      CountsOthers(names[1..], sessions, db);
      assert sessions.Keys == rest.Keys + SessionsOn(sessions, db);
      assert |sessions| == |sessions.Keys| && |rest| == |rest.Keys|;
    }
  }

  lemma {:induction false} CountsOthers(names: seq<DbName>, sessions: map<int, Session>, db: DbName)
    requires db !in names
    ensures Counts(names, Others(sessions, db)) == Counts(names, sessions)
  {
    if names != [] {
      assert SessionsOn(Others(sessions, db), names[0]) == SessionsOn(sessions, names[0]);
      CountsOthers(names[1..], sessions, db);
    }
  }
}
