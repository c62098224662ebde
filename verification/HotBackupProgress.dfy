/**
 How a backup gets on: what a start request is answered, that a checkpoint asked for is
 taken before the go-ahead, that archiving leaves nothing of the log out, and that a backup
 past its archive request is through after a known number of requests.
 */
module HotBackupProgress {
  import opened HotBackup
  import opened HotBackupInvariant
  import opened HotBackupLoss
  import opened HotBackupTheorems
  import HotBackupOrder

  // The start

  /** A start request that is not refused is told to wait if and only if a checkpoint is under
      way or the client asked for one, which is then started; otherwise it has its go-ahead. */
  lemma StartAnswered(s: Sys, steps: seq<Step>, t: Sys, sock: Sock)
    requires Init(s) && Run(s, steps, t) && Enabled(t, Ask(sock))
    requires t.gov.clients[sock].status in {Starting, Waiting} && !Refused(t, t.hbs[sock])
    ensures var c, (g, r) := t.hbs[sock], Serve(t.gov, sock, NextRequest(t.hbs[sock]));
      && c.db in t.gov.sms && c.db in g.sms && sock in g.clients
      && var held := t.gov.sms[c.db].checkpointing || (c.pc == ToStart && c.checkp);
         && (r == if held then Wait else Cont(Some(Data)))
         && (held <==> g.clients[sock].status == Waiting) && (held <==> g.sms[c.db].checkpointing)
         && (!held <==> g.sms[c.db].inProcess) && !g.sms[c.db].enabled
         && (!held ==> g.clients[sock].status == (if c.incr == StopIncr then Ending else Archiving))
  {
    Reachable(s, steps, t);
    assert ConnAt(t.gov, t.hbs, sock);
    var db := t.hbs[sock].db;
    if t.gov.clients[sock].status == Waiting {
      SoleBusy(t, sock);
    } else {
      forall k ensures !Busy(t.gov, k, db) {
        assert k in t.gov.clients ==> t.gov.clients[k].db != db;
      }
    }
  }

  // Waiting for the checkpoint

  /** Told to wait, with the checkpoint still running. */
  predicate Held(s: Sys, sock: Sock, db: Db) {
    && sock in s.gov.clients && s.gov.clients[sock].status == Waiting && s.gov.clients[sock].db == db
    && db in s.gov.sms && s.gov.sms[db].checkpointing
  }

  /** Requests of other connections do not touch the database. */
  lemma OtherAsk(s: Sys, sock: Sock, db: Db, k: Sock)
    requires Inv(s) && Held(s, sock, db) && k != sock && Enabled(s, Ask(k))
    ensures Held(Apply(s, Ask(k)), sock, db)
  {
    assert Busy(s.gov, sock, db) && ConnAt(s.gov, s.hbs, k);
    assert Taken(s.gov, db);
    HotBackupOrder.OtherKept(s.gov, k, NextRequest(s.hbs[k]), sock);
    SoleBusy(s, sock);
    assert s.gov.clients[k].status == Starting || Busy(s.gov, k, s.gov.clients[k].db);
    OtherSm(s.gov, k, NextRequest(s.hbs[k]), db);
  }

  lemma OtherSm(g: Gov, k: Sock, req: Request, db: Db)
    requires k in g.clients && db in g.sms && Taken(g, db) && g.clients[k].db != db
    ensures var h := Serve(g, k, req).0; db in h.sms && h.sms[db] == g.sms[db]
  {
    if req.Start? && req.db in g.sms && req.db != db {
      BeginFrame(g, k, req.db, g.clients[k].files, req.checkp, req.incr, db);
    }
    if req.Start? && g.clients[k].db in g.sms {
      BeginFrame(g, k, g.clients[k].db, g.clients[k].files, false, req.incr, db);
    }
  }

  lemma BeginFrame(g: Gov, k: Sock, own: Db, files: seq<File>, checkp: bool, incr: Incr, db: Db)
    requires k in g.clients && own in g.sms && db in g.sms && db != own
    ensures var h := Begin(g, k, own, files, checkp, incr).0; db in h.sms && h.sms[db] == g.sms[db]
  {
  }

  lemma OwnAsk(s: Sys, sock: Sock, db: Db)
    requires Inv(s) && Held(s, sock, db) && Enabled(s, Ask(sock))
    ensures Held(Apply(s, Ask(sock)), sock, db)
  {
    SoleBusy(s, sock);
  }

  lemma HeldStep(s: Sys, step: Step, sock: Sock, db: Db)
    requires Inv(s) && Held(s, sock, db) && Enabled(s, step) && (step.Lose? ==> Harmless(s, step.sock))
    requires !(step.Finish? && step.db == db) && step != Lose(sock)
    ensures Held(Apply(s, step), sock, db)
  {
    SoleBusy(s, sock);
    if step.Ask? {
      if step.sock == sock { OwnAsk(s, sock, db); } else { OtherAsk(s, sock, db, step.sock); }
    } else if step.Lose? {
      LossEffect(s, step.sock, db);
    }
  }

  lemma {:induction false} StillHeld(s: Sys, steps: seq<Step>, t: Sys, sock: Sock, db: Db)
    requires Inv(s) && Held(s, sock, db) && Run(s, steps, t)
    requires forall i :: 0 <= i < |steps| ==> !(steps[i].Finish? && steps[i].db == db) && steps[i] != Lose(sock)
    ensures Held(t, sock, db)
    decreases |steps|
  {
    if steps != [] {
      HeldStep(s, steps[0], sock, db);
      StepInv(s, steps[0]);
      StillHeld(Apply(s, steps[0]), steps[1..], t, sock, db);
    }
  }

  /** A client that asked for a checkpoint and was told to wait has its go-ahead only after a
      checkpoint of its database has finished, in every run. */
  lemma CheckpointFirst(s: Sys, before: seq<Step>, t: Sys, sock: Sock, after: seq<Step>, u: Sys)
    requires Init(s) && Run(s, before, t) && Enabled(t, Ask(sock))
    requires t.hbs[sock].pc == ToStart && t.hbs[sock].checkp && !Refused(t, t.hbs[sock])
    requires Run(Apply(t, Ask(sock)), after, u) && sock in u.gov.clients && Past(u.gov.clients[sock].status)
    ensures exists i :: 0 <= i < |after| && ((after[i].Finish? && after[i].db == t.hbs[sock].db) || after[i] == Lose(sock))
  {
    Reachable(s, before, t);
    assert ConnAt(t.gov, t.hbs, sock);
    StartAnswered(s, before, t, sock);
    StepInv(t, Ask(sock));
    var db := t.hbs[sock].db;
    if forall i :: 0 <= i < |after| ==> !(after[i].Finish? && after[i].db == db) && after[i] != Lose(sock) {
      assert Held(Apply(t, Ask(sock)), sock, db);
      StillHeld(Apply(t, Ask(sock)), after, u, sock, db);
    }
  }

  // Archiving

  /** The archive request closes the file that holds the newest records: afterwards the
      current log file is empty and the one before it is the last archived. */
  lemma ArchiveComplete(s: Sys, steps: seq<Step>, t: Sys, sock: Sock)
    requires Init(s) && Run(s, steps, t) && Enabled(t, Ask(sock)) && t.gov.clients[sock].status == Archiving
    ensures var db, u := t.hbs[sock].db, Apply(t, Ask(sock));
      && db in t.gov.sms && db in u.gov.sms
      && var was, now := t.gov.sms[db].log, u.gov.sms[db].log;
         && now.empty && now.last == Some(now.cur - 1)
         && now.last.value == (if was.empty then was.cur - 1 else was.cur)
         && now.first == was.first
         && now.nextArch == (if t.hbs[sock].incr == AddIncr then was.nextArch else 0)
  {
    Reachable(s, steps, t);
    SoleBusy(t, sock);
  }

  // To the end

  /** Requests a backup past its archive request still needs. */
  function Remaining(i: Info): nat {
    if i.status == Sending then |i.files| + 2 else 1
  }

  predicate OnItsWay(s: Sys, sock: Sock) {
    sock in s.gov.clients && (s.gov.clients[sock].status == Sending || s.gov.clients[sock].status == Ending)
  }

  /** Each request brings the backup one closer to its end, and the last one ends it. */
  lemma AskCounts(s: Sys, sock: Sock)
    requires Inv(s) && OnItsWay(s, sock) && Enabled(s, Ask(sock))
    ensures var n, t := Remaining(s.gov.clients[sock]), Apply(s, Ask(sock));
      && (n > 1 ==> OnItsWay(t, sock) && Remaining(t.gov.clients[sock]) == n - 1)
      && (n == 1 ==> sock !in t.gov.clients)
      && (n == 1 ==> t.ended == s.ended + [Record(s.hbs[sock].(pc := Finished), LogOf(s.gov, s.hbs[sock].db))])
  {
    SoleBusy(s, sock);
    if s.gov.clients[sock].status == Ending {
      EndApply(s, sock, s.hbs[sock].db);
    }
  }

  lemma OthersStep(s: Sys, step: Step, sock: Sock)
    requires Enabled(s, step) && OnItsWay(s, sock) && step != Ask(sock) && step != Lose(sock)
    ensures OnItsWay(Apply(s, step), sock) && Apply(s, step).gov.clients[sock] == s.gov.clients[sock]
  {
    if step.Ask? {
      HotBackupOrder.OtherKept(s.gov, step.sock, NextRequest(s.hbs[step.sock]), sock);
    }
  }

  function Asks(steps: seq<Step>, sock: Sock): nat {
    if steps == [] then 0 else Asks(steps[1..], sock) + (if steps[0] == Ask(sock) then 1 else 0)
  }

  /** In every run, a backup past its archive request needs exactly the remaining number of
      requests, whatever happens in between: with fewer it is on its way, and the last one
      leaves its client finished. */
  lemma {:induction false} BackupEnds(s: Sys, steps: seq<Step>, t: Sys, sock: Sock)
    requires Inv(s) && OnItsWay(s, sock) && Run(s, steps, t) && forall i :: 0 <= i < |steps| ==> steps[i] != Lose(sock)
    requires Asks(steps, sock) < Remaining(s.gov.clients[sock])
    ensures Inv(t) && OnItsWay(t, sock)
    ensures Remaining(t.gov.clients[sock]) == Remaining(s.gov.clients[sock]) - Asks(steps, sock)
    decreases |steps|
  {
    if steps != [] {
      StepInv(s, steps[0]);
      if steps[0] == Ask(sock) { AskCounts(s, sock); } else { OthersStep(s, steps[0], sock); }
      BackupEnds(Apply(s, steps[0]), steps[1..], t, sock);
    }
  }
}
