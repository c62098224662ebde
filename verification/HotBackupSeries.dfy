/**
 Series of increments over whole runs: each increment takes the log files that follow
 the last one of the backup before it, so that a base backup and its increments together
 hold every log file exactly once.
 */
module HotBackupSeries {
  import opened HotBackup
  import opened HotBackupInvariant
  import opened HotBackupLoss
  import opened HotBackupTheorems

  /** What the last finished backup of a database recorded: unknown if there was none in the
      run, off after a backup outside any series, or the last log file it holds. */
  datatype Point = Unknown | Off | Upto(file: nat)

  predicate Of(e: Record, db: Db) {
    e.client.pc == Finished && e.client.db == db
  }

  function PointOf(e: Record): Point {
    if e.log.last.Some? && (e.client.incr == StartIncr || e.client.incr == AddIncr) then Upto(e.log.last.value) else Off
  }

  function Recorded(ended: seq<Record>, db: Db): Point {
    if ended == [] then Unknown
    else
      var e := ended[|ended| - 1];
      if Of(e, db) then PointOf(e) else Recorded(ended[..|ended| - 1], db)
  }

  /** An increment continues where the backup before it stopped. */
  predicate Follows(p: Point, log: Log) {
    && !p.Off?
    && (p.Upto? ==> log.nextArch == p.file + 1 && log.last.Some? && log.last.value >= p.file)
  }

  predicate Adjacent(ended: seq<Record>) {
    forall n :: 0 <= n < |ended| && ended[n].client.pc == Finished && ended[n].client.incr == AddIncr ==>
      Follows(Recorded(ended[..n], ended[n].client.db), ended[n].log)
  }

  /** The point in the log header is the one recorded, or has been reset. */
  predicate Linked(p: Point, nextArch: nat) {
    nextArch == 0 || p.Unknown? || (p.Upto? && nextArch == p.file + 1)
  }

  predicate Points(g: Gov, ended: seq<Record>) {
    forall db :: db in g.sms ==> Linked(Recorded(ended, db), g.sms[db].log.nextArch)
  }

  predicate Series(s: Sys) {
    Points(s.gov, s.ended) && Adjacent(s.ended)
  }

  lemma RecordedAppend(ended: seq<Record>, e: Record, db: Db)
    ensures Recorded(ended + [e], db) == if Of(e, db) then PointOf(e) else Recorded(ended, db)
  {
    assert (ended + [e])[..|ended|] == ended;
  }

  lemma AdjacentAppend(ended: seq<Record>, e: Record)
    requires Adjacent(ended)
    requires e.client.pc == Finished && e.client.incr == AddIncr ==> Follows(Recorded(ended, e.client.db), e.log)
    ensures Adjacent(ended + [e])
  {
    forall n | 0 <= n < |ended| + 1 ensures (ended + [e])[..n] == if n < |ended| then ended[..n] else ended {}
  }

  /** Storage managers whose recorded points stay or are reset. */
  predicate Calm(g: Gov, h: Gov) {
    forall db :: db in h.sms ==>
      db in g.sms && (h.sms[db].log.nextArch == g.sms[db].log.nextArch || h.sms[db].log.nextArch == 0)
  }

  lemma CalmSeries(s: Sys, t: Sys)
    requires Series(s) && Calm(s.gov, t.gov)
    requires t.ended == s.ended || exists e: Record :: e.client.pc != Finished && t.ended == s.ended + [e]
    ensures Series(t)
  {
    if t.ended != s.ended {
      var e: Record :| e.client.pc != Finished && t.ended == s.ended + [e];
      AdjacentAppend(s.ended, e);
      forall db ensures Recorded(t.ended, db) == Recorded(s.ended, db) {
        RecordedAppend(s.ended, e, db);
      }
    }
  }

  lemma BeginCalm(g: Gov, sock: Sock, db: Db, files: seq<File>, checkp: bool, incr: Incr)
    requires sock in g.clients && db in g.sms
    ensures Calm(g, Begin(g, sock, db, files, checkp, incr).0) && Begin(g, sock, db, files, checkp, incr).1 != Ended
  {
  }

  lemma DroppedCalm(g: Gov, sock: Sock)
    requires sock in g.clients
    ensures Calm(g, Dropped(g, sock))
  {
  }

  lemma ServeCalm(g: Gov, sock: Sock, req: Request)
    requires sock in g.clients && req != End
    ensures Calm(g, Serve(g, sock, req).0) && Serve(g, sock, req).1 != Ended
  {
    var i := g.clients[sock];
    DroppedCalm(g, sock);
    if req.Start? {
      if i.db in g.sms { BeginCalm(g, sock, i.db, i.files, false, req.incr); }
      if req.db in g.sms { BeginCalm(g, sock, req.db, i.files, req.checkp, req.incr); }
    }
  }

  lemma NotYetEnd(s: Sys, sock: Sock)
    requires Inv(s) && Enabled(s, Ask(sock)) && s.gov.clients[sock].status != Ending
    ensures NextRequest(s.hbs[sock]) != End
  {
    assert ConnAt(s.gov, s.hbs, sock);
  }

  lemma LeavesFailed(s: Sys, sock: Sock)
    requires Inv(s) && Enabled(s, Ask(sock)) && s.gov.clients[sock].status != Ending
    ensures var (g, r) := Serve(s.gov, sock, NextRequest(s.hbs[sock])); sock !in g.clients ==> r == Err
  {
    assert ConnAt(s.gov, s.hbs, sock);
  }

  /** A request before the last. */
  lemma AskSeries(s: Sys, sock: Sock)
    requires Inv(s) && Series(s) && Enabled(s, Ask(sock)) && s.gov.clients[sock].status != Ending
    ensures Series(Apply(s, Ask(sock)))
  {
    var c := s.hbs[sock];
    NotYetEnd(s, sock);
    LeavesFailed(s, sock);
    ServeCalm(s.gov, sock, NextRequest(c));
    CalmAsk(s, sock, Serve(s.gov, sock, NextRequest(c)).0, Serve(s.gov, sock, NextRequest(c)).1);
  }

  lemma CalmAsk(s: Sys, sock: Sock, g: Gov, r: Response)
    requires Series(s) && sock in s.hbs && Calm(s.gov, g) && (sock !in g.clients ==> r == Err)
    ensures Series(Answered(s, sock, g, React(s.hbs[sock], r)))
  {
    var c := React(s.hbs[sock], r);
    if sock !in g.clients {
      assert Answered(s, sock, g, c).ended == s.ended + [Record(c, LogOf(s.gov, c.db))];
    }
    CalmSeries(s, Answered(s, sock, g, c));
  }

  /** The end request of an increment: it continues the series. */
  lemma EndFollows(s: Sys, sock: Sock)
    requires Inv(s) && Series(s) && Enabled(s, Ask(sock)) && s.gov.clients[sock].status == Ending
    requires s.hbs[sock].incr == AddIncr
    ensures s.hbs[sock].db in s.gov.sms && Follows(Recorded(s.ended, s.hbs[sock].db), s.gov.sms[s.hbs[sock].db].log)
  {
    SoleBusy(s, sock);
  }

  lemma EndSeries(s: Sys, sock: Sock)
    requires Inv(s) && Series(s) && Enabled(s, Ask(sock)) && s.gov.clients[sock].status == Ending
    ensures Series(Apply(s, Ask(sock)))
  {
    SoleBusy(s, sock);
    var c, db := s.hbs[sock], s.hbs[sock].db;
    var sm := s.gov.sms[db];
    var e := Record(React(c, Ended), sm.log);
    var t := Apply(s, Ask(sock));
    assert t.gov.sms == s.gov.sms[db := EndSm(sm)] && t.ended == s.ended + [e];
    if c.incr == AddIncr {
      EndFollows(s, sock);
    }
    AdjacentAppend(s.ended, e);
    forall d | d in t.gov.sms ensures Linked(Recorded(t.ended, d), t.gov.sms[d].log.nextArch) {
      RecordedAppend(s.ended, e, d);
    }
  }

  lemma StepSeries(s: Sys, step: Step)
    requires Inv(s) && Series(s) && Enabled(s, step)
    ensures Series(Apply(s, step))
  {
    if step.Ask? && s.gov.clients[step.sock].status == Ending {
      EndSeries(s, step.sock);
    } else if step.Ask? {
      AskSeries(s, step.sock);
    } else {
      CalmSeries(s, Apply(s, step));
    }
  }

  lemma {:induction false} RunSeries(s: Sys, steps: seq<Step>, t: Sys)
    requires Inv(s) && Series(s) && Run(s, steps, t)
    ensures Inv(t) && Series(t)
    decreases |steps|
  {
    if steps != [] {
      StepInv(s, steps[0]);
      StepSeries(s, steps[0]);
      RunSeries(Apply(s, steps[0]), steps[1..], t);
    }
  }

  lemma {:induction false} LatestRecorded(ended: seq<Record>, a: nat, b: nat, db: Db)
    requires a < b <= |ended| && Of(ended[a], db) && forall n :: a < n < b ==> !Of(ended[n], db)
    ensures Recorded(ended[..b], db) == PointOf(ended[a])
    decreases b
  {
    assert ended[..b][..b - 1] == ended[..b - 1];
    if a < b - 1 {
      LatestRecorded(ended, a, b - 1, db);
    }
  }

  /** Increments leave no gap and no overlap: in every run, an increment finished after
      another backup of the same database, with no other one finished in between, follows
      a base backup or an increment, and takes exactly the log files after that one's last. */
  lemma NoGap(s: Sys, steps: seq<Step>, t: Sys, a: nat, b: nat)
    requires Init(s) && Run(s, steps, t) && a < b < |t.ended|
    requires var db := t.ended[b].client.db;
      Of(t.ended[a], db) && Of(t.ended[b], db) && forall n :: a < n < b ==> !Of(t.ended[n], db)
    requires t.ended[b].client.incr == AddIncr
    ensures t.ended[a].client.incr == StartIncr || t.ended[a].client.incr == AddIncr
    ensures var before, after := t.ended[a].log, t.ended[b].log;
      && before.last.Some? && after.last.Some? && before.last.value <= after.last.value
      && t.ended[b].client.copied == [Config] + Down(after.last.value, before.last.value + 1)
  {
    RunSeries(s, steps, t);
    LatestRecorded(t.ended, a, b, t.ended[b].client.db);
    assert Follows(PointOf(t.ended[a]), t.ended[b].log);
    Outcomes(s, steps, t, b);
  }

  // A whole series

  function LogsOf(e: Record): seq<File> {
    if e.log.last.Some? then Down(e.log.last.value, Bottom(e.log)) else []
  }

  /** The first log file of the base backup of the series under way, if it is in the run. */
  function Base(ended: seq<Record>, db: Db): Option<nat> {
    if ended == [] then None
    else
      var e, front := ended[|ended| - 1], ended[..|ended| - 1];
      if !Of(e, db) then Base(front, db)
      else if e.client.incr == StartIncr then Some(Bottom(e.log))
      else if e.client.incr == AddIncr then Base(front, db)
      else None
  }

  /** The log files of the base backup and its increments, the latest backup first. */
  function Held(ended: seq<Record>, db: Db): seq<File> {
    if ended == [] then []
    else
      var e, front := ended[|ended| - 1], ended[..|ended| - 1];
      if !Of(e, db) then Held(front, db)
      else if e.client.incr == StartIncr then LogsOf(e)
      else if e.client.incr == AddIncr then LogsOf(e) + Held(front, db)
      else []
  }

  lemma {:induction false} DownJoin(hi: int, mid: nat, lo: nat)
    requires lo <= mid + 1 && mid <= hi
    ensures Down(hi, mid + 1) + Down(mid, lo) == Down(hi, lo)
    decreases hi - mid
  {
    if hi > mid {
      DownJoin(hi - 1, mid, lo);
      assert [LogFile(hi)] + Down(hi - 1, mid + 1) + Down(mid, lo) == [LogFile(hi)] + (Down(hi - 1, mid + 1) + Down(mid, lo));
    } else {
      assert [] + Down(mid, lo) == Down(mid, lo);
    }
  }

  lemma {:induction false} SeriesWhole(ended: seq<Record>, db: Db)
    requires Adjacent(ended) && forall n :: 0 <= n < |ended| ==> EndedOk(ended[n])
    ensures Base(ended, db).Some? ==>
      var p := Recorded(ended, db);
      p.Upto? && Base(ended, db).value <= p.file && Held(ended, db) == Down(p.file, Base(ended, db).value)
  {
    if ended != [] {
      var e, front := ended[|ended| - 1], ended[..|ended| - 1];
      forall n | 0 <= n < |front| ensures front[..n] == ended[..n] {}
      SeriesWhole(front, db);
      if Of(e, db) && e.client.incr == AddIncr && Base(front, db).Some? {
        assert Follows(Recorded(front, db), e.log);
        DownJoin(e.log.last.value, Recorded(front, db).file, Base(front, db).value);
      }
    }
  }

  /** In every run, a base backup and the increments taken since hold together exactly the
      log files from the first of the base to the last recorded, each once. */
  lemma SeriesHolds(s: Sys, steps: seq<Step>, t: Sys, db: Db)
    requires Init(s) && Run(s, steps, t) && Base(t.ended, db).Some?
    ensures Recorded(t.ended, db).Upto? && Held(t.ended, db) == Down(Recorded(t.ended, db).file, Base(t.ended, db).value)
  {
    RunSeries(s, steps, t);
    SeriesWhole(t.ended, db);
  }
}
