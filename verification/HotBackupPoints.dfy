/**
 The point up to which a series has been backed up: the log header has it whenever no
 backup of the database is under way, so that an increment after a base backup, or after
 another increment, is taken and never refused.
 */
module HotBackupPoints {
  import opened HotBackup
  import opened HotBackupInvariant
  import opened HotBackupLoss
  import opened HotBackupTheorems
  import opened HotBackupSeries
  import HotBackupOrder

  /** The log header has the point recorded. */
  predicate Stands(p: Point, nextArch: nat) {
    (p.Upto? ==> nextArch == p.file + 1) && (p.Off? ==> nextArch == 0)
  }

  /** A backup that starts the series over, once it has archived the log. */
  predicate Anew(i: Info, c: Client) {
    (i.status == Sending || i.status == Ending) && (c.incr == StartIncr || c.incr == NoneIncr)
  }

  predicate AnewAt(s: Sys, k: Sock, db: Db) {
    Busy(s.gov, k, db) && k in s.hbs && Anew(s.gov.clients[k], s.hbs[k])
  }

  ghost predicate PointAt(s: Sys, db: Db) {
    db in s.gov.sms ==>
      (exists k :: AnewAt(s, k, db)) || Stands(Recorded(s.ended, db), s.gov.sms[db].log.nextArch)
  }

  ghost predicate PointsStand(s: Sys) {
    forall db :: PointAt(s, db)
  }

  /** A step that leaves the header, the record and the backups that start over. */
  lemma PointKept(s: Sys, t: Sys, db: Db)
    requires PointAt(s, db) && Recorded(t.ended, db) == Recorded(s.ended, db)
    requires db in t.gov.sms ==> db in s.gov.sms && t.gov.sms[db].log.nextArch == s.gov.sms[db].log.nextArch
    requires forall k :: AnewAt(s, k, db) ==> AnewAt(t, k, db)
    ensures PointAt(t, db)
  {
    if k :| AnewAt(s, k, db) {
      assert AnewAt(t, k, db);
    }
  }

  // Requests

  /** Start and next-file requests do not touch the header. */
  lemma ServeKeepsHeader(g: Gov, sock: Sock, req: Request, db: Db)
    requires sock in g.clients && (req.Start? || req.NextFile?) && db in Serve(g, sock, req).0.sms
    ensures db in g.sms && Serve(g, sock, req).0.sms[db].log.nextArch == g.sms[db].log.nextArch
  {
  }

  /** A connection other than the one that asks. */
  lemma OtherAnew(s: Sys, sock: Sock, k: Sock, db: Db)
    requires Enabled(s, Ask(sock)) && k != sock && AnewAt(s, k, db)
    ensures AnewAt(Apply(s, Ask(sock)), k, db)
  {
    HotBackupOrder.OtherKept(s.gov, sock, NextRequest(s.hbs[sock]), k);
  }

  /** A request that does not finish a backup records nothing. */
  lemma NothingRecorded(s: Sys, sock: Sock, db: Db)
    requires Inv(s) && Enabled(s, Ask(sock)) && s.gov.clients[sock].status != Ending
    ensures Recorded(Apply(s, Ask(sock)).ended, db) == Recorded(s.ended, db)
  {
    LeavesFailed(s, sock);
    var (g, r) := Serve(s.gov, sock, NextRequest(s.hbs[sock]));
    if sock !in g.clients {
      RecordedAppend(s.ended, Record(React(s.hbs[sock], r), LogOf(s.gov, s.hbs[sock].db)), db);
    }
  }

  lemma StartPoint(s: Sys, sock: Sock, db: Db)
    requires Inv(s) && PointsStand(s) && Enabled(s, Ask(sock)) && s.gov.clients[sock].status in {Starting, Waiting}
    ensures PointAt(Apply(s, Ask(sock)), db)
  {
    var t := Apply(s, Ask(sock));
    assert ConnAt(s.gov, s.hbs, sock);
    NothingRecorded(s, sock, db);
    if db in t.gov.sms {
      ServeKeepsHeader(s.gov, sock, NextRequest(s.hbs[sock]), db);
    }
    forall k | AnewAt(s, k, db) ensures AnewAt(t, k, db) {
      OtherAnew(s, sock, k, db);
    }
    PointKept(s, t, db);
  }

  lemma SendPoint(s: Sys, sock: Sock, db: Db)
    requires Inv(s) && PointsStand(s) && Enabled(s, Ask(sock)) && s.gov.clients[sock].status == Sending
    ensures PointAt(Apply(s, Ask(sock)), db)
  {
    var t := Apply(s, Ask(sock));
    assert ConnAt(s.gov, s.hbs, sock);
    NothingRecorded(s, sock, db);
    forall k | AnewAt(s, k, db) ensures AnewAt(t, k, db) {
      if k != sock {
        OtherAnew(s, sock, k, db);
      }
    }
    PointKept(s, t, db);
  }

  lemma ArchivePoint(s: Sys, sock: Sock, db: Db)
    requires Inv(s) && PointsStand(s) && Enabled(s, Ask(sock)) && s.gov.clients[sock].status == Archiving
    ensures PointAt(Apply(s, Ask(sock)), db)
  {
    var t, c := Apply(s, Ask(sock)), s.hbs[sock];
    SoleBusy(s, sock);
    NothingRecorded(s, sock, db);
    forall k | AnewAt(s, k, db) ensures AnewAt(t, k, db) {
      OtherAnew(s, sock, k, db);
    }
    if db == c.db && (c.incr == StartIncr || c.incr == NoneIncr) {
      assert AnewAt(t, sock, db);
    } else {
      PointKept(s, t, db);
    }
  }

  /** The end of a backup puts its point into the header. */
  lemma EndPoint(s: Sys, sock: Sock, db: Db)
    requires Inv(s) && PointsStand(s) && Enabled(s, Ask(sock)) && s.gov.clients[sock].status == Ending
    ensures PointAt(Apply(s, Ask(sock)), db)
  {
    SoleBusy(s, sock);
    var c := s.hbs[sock];
    EndApply(s, sock, c.db);
    var e := Record(React(c, Ended), s.gov.sms[c.db].log);
    RecordedAppend(s.ended, e, db);
    if db != c.db {
      forall k | AnewAt(s, k, db) ensures AnewAt(Apply(s, Ask(sock)), k, db) {
        OtherAnew(s, sock, k, db);
      }
      PointKept(s, Apply(s, Ask(sock)), db);
    }
  }

  // Losses

  /** The lost client's backup was not starting the series over. */
  predicate Spares(s: Sys, sock: Sock)
    requires Enabled(s, Lose(sock))
  {
    !Anew(s.gov.clients[sock], s.hbs[sock])
  }

  lemma LossKeepsHeader(s: Sys, sock: Sock, db: Db)
    requires Inv(s) && Enabled(s, Lose(sock)) && db in Apply(s, Lose(sock)).gov.sms
    ensures db in s.gov.sms && Apply(s, Lose(sock)).gov.sms[db].log.nextArch == s.gov.sms[db].log.nextArch
  {
    LossEffect(s, sock, db);
  }

  lemma LossKeepsAnew(s: Sys, sock: Sock, k: Sock, db: Db)
    requires Enabled(s, Lose(sock)) && AnewAt(s, k, db) && k != sock
    ensures AnewAt(Apply(s, Lose(sock)), k, db)
  {
  }

  /** A loss keeps the point of a database the lost client is not starting over. */
  lemma LossPoint(s: Sys, sock: Sock, db: Db)
    requires Inv(s) && PointAt(s, db) && Enabled(s, Lose(sock)) && !AnewAt(s, sock, db)
    ensures PointAt(Apply(s, Lose(sock)), db)
  {
    var t := Apply(s, Lose(sock));
    if db in t.gov.sms {
      LossKeepsHeader(s, sock, db);
    }
    forall k | AnewAt(s, k, db) ensures AnewAt(t, k, db) {
      LossKeepsAnew(s, sock, k, db);
    }
    PointKept(s, t, db);
  }

  /** Losing a client that starts a series over leaves the header without a point. */
  lemma PointLost(s: Sys, sock: Sock)
    requires Inv(s) && Enabled(s, Lose(sock)) && Harmless(s, sock) && !Spares(s, sock)
    ensures PointAt(Apply(s, Lose(sock)), s.hbs[sock].db) <==> !Recorded(s.ended, s.hbs[sock].db).Upto?
  {
    var t, d := Apply(s, Lose(sock)), s.hbs[sock].db;
    SoleBusy(s, sock);
    LossEffect(s, sock, d);
    forall k ensures !AnewAt(t, k, d) {
      assert Busy(t.gov, k, d) ==> Busy(s.gov, k, d);
    }
    assert t.gov.sms[d].log.nextArch == 0;
  }

  /** A harmless loss keeps the points if and only if it spares the series: otherwise the
      point of a series that was recorded is gone, and only a new base backup can follow. */
  lemma LossForgets(s: Sys, sock: Sock)
    requires Inv(s) && PointsStand(s) && Enabled(s, Lose(sock)) && Harmless(s, sock)
    ensures PointsStand(Apply(s, Lose(sock))) <==> Spares(s, sock) || !Recorded(s.ended, s.hbs[sock].db).Upto?
  {
    var t := Apply(s, Lose(sock));
    if Spares(s, sock) {
      forall db ensures PointAt(t, db) {
        LossPoint(s, sock, db);
      }
    } else {
      PointLost(s, sock);
      SoleBusy(s, sock);
      forall db | db != s.hbs[sock].db ensures PointAt(t, db) {
        LossPoint(s, sock, db);
      }
      assert PointAt(t, s.hbs[sock].db) ==> PointsStand(t);
    }
  }

  // Runs

  lemma StepPoint(s: Sys, step: Step, db: Db)
    requires Inv(s) && PointsStand(s) && Enabled(s, step) && (step.Lose? ==> Spares(s, step.sock))
    ensures PointAt(Apply(s, step), db)
  {
    if step.Ask? {
      match s.gov.clients[step.sock].status {
        case Starting => StartPoint(s, step.sock, db);
        case Waiting => StartPoint(s, step.sock, db);
        case Archiving => ArchivePoint(s, step.sock, db);
        case Sending => SendPoint(s, step.sock, db);
        case Ending => EndPoint(s, step.sock, db);
      }
    } else if step.Lose? {
      LossPoint(s, step.sock, db);
    } else {
      PointKept(s, Apply(s, step), db);
    }
  }

  /** No client is lost while it starts a series over. */
  ghost predicate Sparing(s: Sys, steps: seq<Step>)
    decreases |steps|
  {
    steps != [] && Enabled(s, steps[0]) ==>
      (steps[0].Lose? ==> Spares(s, steps[0].sock)) && Sparing(Apply(s, steps[0]), steps[1..])
  }

  lemma {:induction false} NoLossSpares(s: Sys, steps: seq<Step>)
    requires forall i :: 0 <= i < |steps| ==> !steps[i].Lose?
    ensures Sparing(s, steps)
    decreases |steps|
  {
    if steps != [] && Enabled(s, steps[0]) {
      NoLossSpares(Apply(s, steps[0]), steps[1..]);
    }
  }

  lemma {:induction false} RunPoints(s: Sys, steps: seq<Step>, t: Sys)
    requires Inv(s) && PointsStand(s) && Run(s, steps, t) && Sparing(s, steps)
    ensures Inv(t) && PointsStand(t)
    decreases |steps|
  {
    if steps != [] {
      StepInv(s, steps[0]);
      forall db ensures PointAt(Apply(s, steps[0]), db) {
        StepPoint(s, steps[0], db);
      }
      RunPoints(Apply(s, steps[0]), steps[1..], t);
    }
  }

  /** In every run in which no client is lost while it starts a series over, and so in every
      run without losses: on a database without a backup in progress the header has the
      point of the last backup finished. */
  lemma PointRecorded(s: Sys, steps: seq<Step>, t: Sys, db: Db)
    requires Init(s) && Run(s, steps, t) && Sparing(s, steps)
    requires db in t.gov.sms && forall k :: !Busy(t.gov, k, db)
    ensures var p, next := Recorded(t.ended, db), t.gov.sms[db].log.nextArch;
      (p.Upto? ==> next == p.file + 1) && (p.Off? ==> next == 0)
  {
    RunPoints(s, steps, t);
    assert PointAt(t, db);
  }

  /** The database is ready for this client's start request. */
  predicate Ready(t: Sys, c: Client) {
    c.db in t.gov.sms && !t.gov.sms[c.db].recovery && (c.pc == ToRestart || (c.pc == ToStart && !Taken(t.gov, c.db)))
  }

  /** In such a run, an increment asked for on a database that is ready, after a backup of
      the database, is refused if and only if that backup left no series and there is no
      checkpoint to wait for. After a base backup or an increment it is never refused. */
  lemma {:induction false} IncrementIff(s: Sys, steps: seq<Step>, t: Sys, sock: Sock)
    requires Init(s) && Run(s, steps, t) && Sparing(s, steps) && Enabled(t, Ask(sock))
    requires Ready(t, t.hbs[sock]) && t.hbs[sock].incr == AddIncr && !Recorded(t.ended, t.hbs[sock].db).Unknown?
    ensures var c := t.hbs[sock]; var sm := t.gov.sms[c.db];
      Serve(t.gov, sock, NextRequest(c)).1 == Err <==>
        Recorded(t.ended, c.db).Off? && !sm.checkpointing && (c.pc == ToStart ==> !c.checkp)
  {
    RunPoints(s, steps, t);
    ErrorsAreRefusals(s, steps, t, sock);
    PointReady(t, sock);
    RefusedIncrement(t, t.hbs[sock], Recorded(t.ended, t.hbs[sock].db));
  }

  lemma RefusedIncrement(t: Sys, c: Client, p: Point)
    requires Ready(t, c) && c.incr == AddIncr && !p.Unknown? && Stands(p, t.gov.sms[c.db].log.nextArch)
    ensures Refused(t, c) <==> p.Off? && !t.gov.sms[c.db].checkpointing && (c.pc == ToStart ==> !c.checkp)
  {
  }

  lemma PointReady(t: Sys, sock: Sock)
    requires Inv(t) && PointsStand(t) && Enabled(t, Ask(sock)) && Ready(t, t.hbs[sock])
    ensures Stands(Recorded(t.ended, t.hbs[sock].db), t.gov.sms[t.hbs[sock].db].log.nextArch)
  {
    NotAnew(t, sock);
    assert PointAt(t, t.hbs[sock].db);
  }

  lemma NotAnew(t: Sys, sock: Sock)
    requires Inv(t) && Enabled(t, Ask(sock)) && Ready(t, t.hbs[sock])
    ensures forall k :: !AnewAt(t, k, t.hbs[sock].db)
  {
    var c := t.hbs[sock];
    assert ConnAt(t.gov, t.hbs, sock);
    if c.pc == ToRestart {
      SoleBusy(t, sock);
    }
    forall k ensures !AnewAt(t, k, c.db) {
      assert Busy(t.gov, k, c.db) ==> k == sock || Taken(t.gov, c.db);
    }
  }
}
