/** Runs of hot backups: the invariant holds in all of them, and what follows from it. */
module HotBackupTheorems {
  import opened HotBackup
  import opened HotBackupInvariant
  import opened HotBackupLoss

  // The rest of the world: transactions write the log, checkpoints come and go

  ghost predicate Keeps(sm: Sm, sm': Sm) {
    && (forall i, c :: ConnOk(i, c, sm) ==> ConnOk(i, c, sm'))
    && (IdleSm(sm) ==> IdleSm(sm')) && LogOk(sm'.log)
  }

  lemma SetSmInv(s: Sys, db: Db, sm: Sm)
    requires Inv(s) && db in s.gov.sms && Keeps(s.gov.sms[db], sm)
    ensures Inv(SetSm(s, db, sm))
  {
    var t := SetSm(s, db, sm);
    assert forall k, d :: Busy(t.gov, k, d) <==> Busy(s.gov, k, d);
    forall k | k in t.gov.clients ensures ConnAt(t.gov, t.hbs, k) {
      assert ConnAt(s.gov, s.hbs, k);
    }
  }

  lemma WriteKeeps(sm: Sm, cur: nat)
    requires LogOk(sm.log) && cur >= sm.log.cur
    ensures Keeps(sm, sm.(log := sm.log.(cur := cur, empty := false)))
  {
    var sm' := sm.(log := sm.log.(cur := cur, empty := false));
    ChainFrame(sm.log, sm'.log, LastArchived(sm.log));
  }

  /** A checkpoint in progress excludes a backup past its start. */
  lemma CheckpointingSm(s: Sys, db: Db)
    requires Inv(s) && db in s.gov.sms && s.gov.sms[db].checkpointing
    ensures s.gov.sms[db].log.last.None?
    ensures forall i, c :: ConnOk(i, c, s.gov.sms[db]) ==> i.status == Waiting
  {
    if k :| Busy(s.gov, k, db) {
      SoleBusy(s, k);
    }
  }

  lemma FinishKeeps(s: Sys, db: Db, first: nat)
    requires Inv(s) && Enabled(s, Finish(db, first))
    ensures var sm := s.gov.sms[db];
      Keeps(sm, sm.(checkpointing := false, log := sm.log.(first := first, empty := false)))
  {
    CheckpointingSm(s, db);
  }

  lemma StepInv(s: Sys, step: Step)
    requires Inv(s) && Enabled(s, step) && (step.Lose? ==> Harmless(s, step.sock))
    ensures Inv(Apply(s, step))
  {
    match step {
      case Connect(_, _, _, _) => ConnectInv(s, step);
      case Ask(sock) =>
        match s.gov.clients[sock].status {
          case Starting => StartInv(s, sock);
          case Waiting => RestartInv(s, sock);
          case Archiving => ArchiveInv(s, sock);
          case Sending => NextInv(s, sock);
          case Ending => EndInv(s, sock);
        }
      case Write(db, cur) =>
        WriteKeeps(s.gov.sms[db], cur);
        SetSmInv(s, db, s.gov.sms[db].(log := s.gov.sms[db].log.(cur := cur, empty := false)));
      case Activate(db) =>
        SetSmInv(s, db, s.gov.sms[db].(checkpointing := true));
      case Finish(db, first) =>
        FinishKeeps(s, db, first);
        SetSmInv(s, db, s.gov.sms[db].(checkpointing := false, log := s.gov.sms[db].log.(first := first, empty := false)));
      case Lose(sock) => HarmlessKeeps(s, sock);
    }
  }

  /** No backups yet; every storage manager idle with its log in order. */
  ghost predicate Init(s: Sys) {
    && s.gov.clients == map[] && s.served == Nobody && s.hbs == map[] && s.ended == []
    && forall db :: db in s.gov.sms ==> IdleSm(s.gov.sms[db]) && LogOk(s.gov.sms[db].log)
  }

  /** A run in which clients are lost only harmlessly, if at all. */
  ghost predicate Run(s: Sys, steps: seq<Step>, t: Sys)
    decreases |steps|
  {
    if steps == [] then t == s
    else
      && Enabled(s, steps[0]) && (steps[0].Lose? ==> Harmless(s, steps[0].sock))
      && Run(Apply(s, steps[0]), steps[1..], t)
  }

  lemma {:induction false} RunInv(s: Sys, steps: seq<Step>, t: Sys)
    requires Inv(s) && Run(s, steps, t)
    ensures Inv(t)
    decreases |steps|
  {
    if steps != [] {
      StepInv(s, steps[0]);
      RunInv(Apply(s, steps[0]), steps[1..], t);
    }
  }

  lemma Reachable(s: Sys, steps: seq<Step>, t: Sys)
    requires Init(s) && Run(s, steps, t)
    ensures Inv(t)
  {
    RunInv(s, steps, t);
  }

  // What holds in every run

  /** From the go-ahead to the end of a backup its storage manager is in backup mode, no
      checkpoint is running and none can start. */
  lemma CheckpointsOff(s: Sys, steps: seq<Step>, t: Sys, sock: Sock)
    requires Init(s) && Run(s, steps, t) && Enabled(t, Ask(sock))
    requires t.gov.clients[sock].status in {Archiving, Sending, Ending}
    ensures var db := t.hbs[sock].db;
      && db in t.gov.sms && t.gov.sms[db].inProcess
      && !t.gov.sms[db].checkpointing && !Enabled(t, Activate(db))
  {
    Reachable(s, steps, t);
    SoleBusy(t, sock);
  }

  /** No database has two backups in progress. */
  lemma OneBackupPerDatabase(s: Sys, steps: seq<Step>, t: Sys, k: Sock, l: Sock, db: Db)
    requires Init(s) && Run(s, steps, t) && Busy(t.gov, k, db) && Busy(t.gov, l, db)
    ensures k == l
  {
    Reachable(s, steps, t);
  }

  /** Why a start request is turned down. */
  predicate Refused(t: Sys, c: Client) {
    if c.pc == ToStart then
      || Taken(t.gov, c.db) || c.db !in t.gov.sms || t.gov.sms[c.db].recovery
      || (!c.checkp && !t.gov.sms[c.db].checkpointing && c.incr == AddIncr && t.gov.sms[c.db].log.nextArch == 0)
    else
      && c.pc == ToRestart && c.db in t.gov.sms && !t.gov.sms[c.db].checkpointing
      && c.incr == AddIncr && t.gov.sms[c.db].log.nextArch == 0
  }

  /** The client never violates the protocol: its request fails only if it is a start
      request, and then exactly for one of these reasons. */
  lemma ErrorsAreRefusals(s: Sys, steps: seq<Step>, t: Sys, sock: Sock)
    requires Init(s) && Run(s, steps, t) && Enabled(t, Ask(sock))
    ensures Serve(t.gov, sock, NextRequest(t.hbs[sock])).1 == Err <==> Refused(t, t.hbs[sock])
  {
    Reachable(s, steps, t);
    assert ConnAt(t.gov, t.hbs, sock);
    if t.gov.clients[sock].status != Starting {
      SoleBusy(t, sock);
    }
  }

  /** At the end request the client has copied the data file (unless this is an
      increment), the configuration and the archived log files newest first, each once. */
  lemma AllFilesCopied(s: Sys, steps: seq<Step>, t: Sys, sock: Sock)
    requires Init(s) && Run(s, steps, t) && Enabled(t, Ask(sock)) && t.gov.clients[sock].status == Ending
    requires t.hbs[sock].incr != StopIncr
    ensures var c := t.hbs[sock];
      && c.db in t.gov.sms && t.gov.sms[c.db].log.last.Some?
      && var log := t.gov.sms[c.db].log;
         c.copied == (if c.incr == AddIncr then [] else [Data]) + [Config] + Down(log.last.value, Bottom(log))
  {
    Reachable(s, steps, t);
    SoleBusy(t, sock);
    LogsInOrder(t.gov.sms[t.hbs[sock].db].log);
  }

  lemma {:induction false} DownAt(hi: int, lo: nat, i: nat)
    requires i < |Down(hi, lo)|
    ensures |Down(hi, lo)| == hi - lo + 1 && Down(hi, lo)[i] == LogFile(hi - i)
    decreases hi - lo
  {
    if hi > lo {
      DownAt(hi - 1, lo, if i == 0 then 0 else i - 1);
    }
  }

  /** A client that is through has all its files: data (unless an increment),
      configuration, and the log files from the last archived down to the first there is,
      or down to the first not in an earlier backup. One that was refused has none. */
  lemma Outcomes(s: Sys, steps: seq<Step>, t: Sys, n: nat)
    requires Init(s) && Run(s, steps, t) && n < |t.ended|
    ensures var c, log := t.ended[n].client, t.ended[n].log;
      && (c.pc == Finished || (c.pc == Failed && c.copied == []))
      && (c.pc == Finished && c.incr == StopIncr ==> c.copied == [])
      && (c.pc == Finished && c.incr == AddIncr ==>
            log.last.Some? && c.copied == [Config] + Down(log.last.value, log.nextArch))
      && (c.pc == Finished && (c.incr == StartIncr || c.incr == NoneIncr) ==>
            log.last.Some? && log.first <= log.last.value && c.copied == [Data, Config] + Down(log.last.value, log.first))
  {
    Reachable(s, steps, t);
    assert EndedOk(t.ended[n]);
    assert [Data] + [Config] == [Data, Config] && [] + [Config] == [Config];
  }

  /** A connection dropped by its own status, as when a reply cannot be sent, gives the
      checkpoints back exactly if it was not told to wait. */
  lemma DroppedClient(s: Sys, steps: seq<Step>, t: Sys, sock: Sock)
    requires Init(s) && Run(s, steps, t) && Enabled(t, Ask(sock)) && t.gov.clients[sock].status != Starting
    ensures var db := t.hbs[sock].db;
      && db in t.gov.sms && db in Dropped(t.gov, sock).sms
      && (Dropped(t.gov, sock).sms[db].enabled <==> t.gov.clients[sock].status != Waiting)
  {
    Reachable(s, steps, t);
    SoleBusy(t, sock);
  }

  /** A client lost: the outcome is defined exactly if the connection served last is still
      there, and the client's own checkpoints are given back exactly if it is that
      connection and was not told to wait. */
  lemma LostClient(s: Sys, steps: seq<Step>, t: Sys, sock: Sock)
    requires Init(s) && Run(s, steps, t) && Enabled(t, Ask(sock))
    ensures Lost(t.gov, t.served, sock).Some? <==> t.served.At?
    ensures t.served.At? && t.gov.clients[sock].status != Starting ==>
      var db, sms := t.hbs[sock].db, Lost(t.gov, t.served, sock).value.sms;
      db in sms && (sms[db].enabled <==> t.served == At(sock) && t.gov.clients[sock].status != Waiting)
  {
    Reachable(s, steps, t);
    if t.served.At? && t.gov.clients[sock].status != Starting {
      SoleBusy(t, sock);
      LossEffect(t, sock, t.hbs[sock].db);
      assert t.gov.clients[t.served.sock].status != Starting ==>
        Busy(t.gov, t.served.sock, t.gov.clients[t.served.sock].db);
    }
  }

  /** What the loss does to another backup under way: its storage manager leaves backup mode
      and checkpoints may start in the middle of it, exactly if it was served last. */
  lemma LossHitsOther(s: Sys, steps: seq<Step>, t: Sys, sock: Sock, k: Sock)
    requires Init(s) && Run(s, steps, t) && Enabled(t, Lose(sock)) && Enabled(t, Ask(k)) && k != sock
    requires Past(t.gov.clients[k].status)
    ensures var db, sms := t.hbs[k].db, Apply(t, Lose(sock)).gov.sms;
      && db in sms && k in Apply(t, Lose(sock)).gov.clients
      && (!sms[db].inProcess && sms[db].enabled <==> t.served == At(k))
      && (t.served != At(k) ==> sms[db] == t.gov.sms[db])
  {
    Reachable(s, steps, t);
    SoleBusy(t, k);
    LossEffect(t, sock, t.hbs[k].db);
    assert t.gov.clients[t.served.sock].status != Starting ==>
      Busy(t.gov, t.served.sock, t.gov.clients[t.served.sock].db);
  }

  /** Every run stays a run with the invariant across a loss exactly if it is harmless. */
  lemma LossTolerated(s: Sys, steps: seq<Step>, t: Sys, sock: Sock)
    requires Init(s) && Run(s, steps, t) && Enabled(t, Lose(sock))
    ensures Inv(Apply(t, Lose(sock))) <==> Harmless(t, sock)
  {
    Reachable(s, steps, t);
    LossIff(t, sock);
  }
}
