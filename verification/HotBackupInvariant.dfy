/**
 What every step of a fault-free hot backup keeps: client and governor at matching
 points, one connection per database, checkpoints off and the log frozen from the
 go-ahead to the end, and the exact queue of files.
 */
module HotBackupInvariant {
  import opened HotBackup

  predicate LogOk(log: Log) {
    && log.first <= log.cur && (log.empty ==> log.first < log.cur)
    && (log.nextArch != 0 ==> log.first <= log.nextArch <= log.cur)
    && (log.last.Some? ==> log.first <= log.last.value < log.cur && log.nextArch <= log.last.value + 1)
  }

  /** What a backup has to copy, the log files newest first. */
  function Expected(incr: Incr, log: Log): seq<File> {
    (if incr == AddIncr then [] else [Data]) + [Config] + Chain(log, LastArchived(log))
  }

  /** The storage manager between the go-ahead and the end of a backup. */
  predicate Under(sm: Sm, incr: Incr) {
    && sm.inProcess && !sm.enabled && !sm.checkpointing && sm.log.incr == incr
    && (incr == AddIncr ==> sm.log.nextArch != 0)
  }

  predicate IdleSm(sm: Sm) {
    !sm.inProcess && sm.enabled && sm.log.last.None?
  }

  /** A connection past its start request. */
  predicate ConnOk(i: Info, c: Client, sm: Sm) {
    match i.status
    case Starting => false
    case Waiting =>
      && c.pc == ToRestart && i.files == [] && c.copied == []
      && !sm.recovery && !sm.inProcess && !sm.enabled && sm.log.last.None?
    case Archiving =>
      && c.pc == ToArchive && c.incr != StopIncr && i.files == [] && Under(sm, c.incr) && sm.log.last.None?
      && c.copied == (if c.incr == AddIncr then [] else [Data])
    case Sending =>
      && c.pc == ToNext && c.incr != StopIncr && Under(sm, c.incr) && sm.log.last.Some?
      && (c.incr != AddIncr ==> sm.log.nextArch == 0)
      && c.copied + i.files == Expected(c.incr, sm.log)
    case Ending =>
      && c.pc == ToEnd && Under(sm, c.incr)
      && if c.incr == StopIncr then c.copied == []
         else sm.log.last.Some? && (c.incr != AddIncr ==> sm.log.nextArch == 0) && c.copied == Expected(c.incr, sm.log)
  }

  /** The log files hi, hi - 1, ..., lo. */
  function Down(hi: int, lo: nat): seq<File>
    decreases if hi >= lo then hi - lo + 1 else 0
  {
    if hi < lo then [] else [LogFile(hi)] + Down(hi - 1, lo)
  }

  /** The lowest log file a backup takes: the first there is, or the first not in an
      earlier backup of the series. */
  function Bottom(log: Log): nat {
    if log.nextArch > log.first then log.nextArch else log.first
  }

  /** What a client leaves with: all its files, or nothing because it was refused. */
  predicate EndedOk(e: Record) {
    var c, log := e.client, e.log;
    if c.pc == Finished then
      if c.incr == StopIncr then c.copied == []
      else
        && LogOk(log) && log.last.Some? && (c.incr == AddIncr <==> log.nextArch != 0)
        && c.copied == (if c.incr == AddIncr then [] else [Data]) + [Config] + Down(log.last.value, Bottom(log))
    else c.pc == Failed && c.copied == []
  }

  predicate Busy(g: Gov, sock: Sock, db: Db) {
    sock in g.clients && g.clients[sock].status != Starting && g.clients[sock].db == db
  }

  predicate Fresh(i: Info, c: Client) {
    i == Info(Starting, "", []) && c.pc == ToStart && c.copied == [] && c.db != ""
  }

  predicate Conns(g: Gov, hbs: map<Sock, Client>) {
    && hbs.Keys == g.clients.Keys
    && forall k :: k in g.clients ==> ConnAt(g, hbs, k)
  }

  ghost predicate Single(g: Gov) {
    forall k, l, db :: Busy(g, k, db) && Busy(g, l, db) ==> k == l
  }

  ghost predicate Sms(g: Gov) {
    && (forall db :: db in g.sms ==> LogOk(g.sms[db].log))
    && (forall db :: db in g.sms && (forall k :: !Busy(g, k, db)) ==> IdleSm(g.sms[db]))
  }

  ghost predicate Inv(s: Sys) {
    && Conns(s.gov, s.hbs) && Single(s.gov) && Sms(s.gov)
    && (s.served.At? ==> s.served.sock in s.gov.clients)
    && forall n :: 0 <= n < |s.ended| ==> EndedOk(s.ended[n])
  }

  // Moving one connection and its storage manager

  predicate ConnAt(g: Gov, hbs: map<Sock, Client>, k: Sock)
    requires k in g.clients && k in hbs
  {
    var i, c := g.clients[k], hbs[k];
    Fresh(i, c) || (i.db == c.db && c.db != "" && i.db in g.sms && ConnOk(i, c, g.sms[i.db]))
  }

  /** A connection on another database does not notice. */
  lemma Bystander(g: Gov, hbs: map<Sock, Client>, g': Gov, hbs': map<Sock, Client>, k: Sock, db: Db)
    requires Conns(g, hbs) && k in g.clients && k in g'.clients && k in hbs'
    requires g'.clients[k] == g.clients[k] && hbs'[k] == hbs[k] && !Busy(g, k, db)
    requires forall d :: d in g.sms && d != db ==> d in g'.sms && g'.sms[d] == g.sms[d]
    ensures ConnAt(g', hbs', k)
  {
    assert ConnAt(g, hbs, k);
  }

  /** Only this connection is on the database. */
  ghost predicate Sole(g: Gov, sock: Sock, db: Db) {
    && sock in g.clients && db in g.sms
    && (g.clients[sock].status == Starting || g.clients[sock].db == db)
    && forall k :: Busy(g, k, db) ==> k == sock
  }

  lemma PutConns(g: Gov, hbs: map<Sock, Client>, sock: Sock, i: Info, c: Client, sm: Sm)
    requires Conns(g, hbs) && Sole(g, sock, i.db)
    requires i.db == c.db && c.db != "" && ConnOk(i, c, sm)
    ensures Conns(Gov(g.clients[sock := i], g.sms[i.db := sm]), hbs[sock := c])
  {
    var g', hbs' := Gov(g.clients[sock := i], g.sms[i.db := sm]), hbs[sock := c];
    forall k | k in g'.clients ensures ConnAt(g', hbs', k) {
      if k != sock {
        Bystander(g, hbs, g', hbs', k, i.db);
      }
    }
  }

  lemma PutSms(g: Gov, sock: Sock, i: Info, sm: Sm)
    requires Single(g) && Sms(g) && Sole(g, sock, i.db) && i.status != Starting && LogOk(sm.log)
    ensures var g' := Gov(g.clients[sock := i], g.sms[i.db := sm]); Single(g') && Sms(g')
  {
    var g' := Gov(g.clients[sock := i], g.sms[i.db := sm]);
    assert Busy(g', sock, i.db);
    forall db | db in g'.sms && forall k :: !Busy(g', k, db) ensures IdleSm(g'.sms[db]) {
      forall k ensures !Busy(g, k, db) {
        assert !Busy(g', k, db);
      }
    }
    forall k, l, db | Busy(g', k, db) && Busy(g', l, db) ensures k == l {
      assert k != sock ==> Busy(g, k, db);
      assert l != sock ==> Busy(g, l, db);
    }
  }

  lemma Put(s: Sys, sock: Sock, i: Info, c: Client, sm: Sm)
    requires Inv(s) && Sole(s.gov, sock, i.db) && i.status != Starting && i.db == c.db && c.db != ""
    requires ConnOk(i, c, sm) && LogOk(sm.log)
    ensures Inv(s.(gov := Gov(s.gov.clients[sock := i], s.gov.sms[i.db := sm]), served := At(sock), hbs := s.hbs[sock := c]))
  {
    PutConns(s.gov, s.hbs, sock, i, c, sm);
    PutSms(s.gov, sock, i, sm);
  }

  lemma RemoveSms(g: Gov, sock: Sock, db: Db, sm: Sm)
    requires Single(g) && Sms(g) && Sole(g, sock, db) && IdleSm(sm) && LogOk(sm.log)
    ensures var g' := Gov(g.clients - {sock}, g.sms[db := sm]); Single(g') && Sms(g')
  {
    var g' := Gov(g.clients - {sock}, g.sms[db := sm]);
    forall d | d in g'.sms && forall k :: !Busy(g', k, d) ensures IdleSm(g'.sms[d]) {
      if d != db {
        forall k ensures !Busy(g, k, d) {
          assert !Busy(g', k, d);
        }
      }
    }
    forall k, l, d | Busy(g', k, d) && Busy(g', l, d) ensures k == l {
      assert Busy(g, k, d) && Busy(g, l, d);
    }
  }

  /** Erasing a connection and leaving its storage manager idle. */
  lemma RemoveConn(g: Gov, hbs: map<Sock, Client>, sock: Sock, db: Db, sm: Sm)
    requires Conns(g, hbs) && Single(g) && Sms(g) && Sole(g, sock, db) && IdleSm(sm) && LogOk(sm.log)
    ensures var g', hbs' := Gov(g.clients - {sock}, g.sms[db := sm]), hbs - {sock};
      Conns(g', hbs') && Single(g') && Sms(g')
  {
    var g', hbs' := Gov(g.clients - {sock}, g.sms[db := sm]), hbs - {sock};
    forall k | k in g'.clients ensures ConnAt(g', hbs', k) {
      Bystander(g, hbs, g', hbs', k, db);
    }
    RemoveSms(g, sock, db, sm);
  }

  lemma Remove(s: Sys, sock: Sock, db: Db, sm: Sm, e: Record)
    requires Inv(s) && Sole(s.gov, sock, db) && IdleSm(sm) && LogOk(sm.log) && EndedOk(e)
    ensures Inv(Sys(Gov(s.gov.clients - {sock}, s.gov.sms[db := sm]), Gone, s.hbs - {sock}, s.ended + [e]))
  {
    RemoveConn(s.gov, s.hbs, sock, db, sm);
  }

  /** Erasing a connection that has not begun. */
  lemma EraseFresh(g: Gov, hbs: map<Sock, Client>, sock: Sock)
    requires Conns(g, hbs) && Single(g) && Sms(g) && sock in g.clients && g.clients[sock].status == Starting
    ensures Conns(Erased(g, sock), hbs - {sock}) && Single(Erased(g, sock)) && Sms(Erased(g, sock))
  {
    var g', hbs' := Erased(g, sock), hbs - {sock};
    assert forall k, d :: Busy(g', k, d) <==> Busy(g, k, d);
    forall k | k in g'.clients ensures ConnAt(g', hbs', k) {
      assert ConnAt(g, hbs, k);
    }
  }

  lemma RemoveFresh(s: Sys, sock: Sock, e: Record)
    requires Inv(s) && sock in s.gov.clients && s.gov.clients[sock].status == Starting && EndedOk(e)
    ensures Inv(Sys(Erased(s.gov, sock), Gone, s.hbs - {sock}, s.ended + [e]))
  {
    EraseFresh(s.gov, s.hbs, sock);
  }

  lemma ConnectInv(s: Sys, step: Step)
    requires Inv(s) && step.Connect? && Enabled(s, step)
    ensures Inv(Apply(s, step))
  {
    var g := Apply(s, step).gov;
    assert forall k, d :: Busy(g, k, d) <==> Busy(s.gov, k, d);
  }

  // Requests

  lemma {:induction false} ChainDown(log: Log, n: nat)
    requires log.first <= n && log.nextArch <= n
    ensures Chain(log, Some(n)) == Down(n, Bottom(log))
  {
    if n == log.nextArch || log.first >= n {
      assert Down(n, n) == [LogFile(n)] + Down(n - 1, n);
    } else {
      ChainDown(log, n - 1);
    }
  }

  /** Asked for one by one, the log files come newest first, each once, down to the oldest
      not in an earlier backup. */
  lemma LogsInOrder(log: Log)
    requires log.last.Some? && log.first <= log.last.value
    ensures Chain(log, LastArchived(log)) == Down(log.last.value, Bottom(log))
  {
    if log.last.value >= log.nextArch {
      ChainDown(log, log.last.value);
    }
  }

  lemma {:induction false} ChainFrame(log: Log, log': Log, n: Option<nat>)
    requires log'.first == log.first && log'.nextArch == log.nextArch
    ensures Chain(log', n) == Chain(log, n)
    decreases if n.Some? then n.value + 1 else 0
  {
    if n.Some? {
      ChainFrame(log, log', PrevArchived(log, n.value));
    }
  }

  lemma SoleBusy(s: Sys, sock: Sock)
    requires Inv(s) && sock in s.gov.clients && s.gov.clients[sock].status != Starting
    ensures Sole(s.gov, sock, s.gov.clients[sock].db) && s.gov.clients[sock].db == s.hbs[sock].db != ""
    ensures ConnOk(s.gov.clients[sock], s.hbs[sock], s.gov.sms[s.gov.clients[sock].db])
    ensures LogOk(s.gov.sms[s.gov.clients[sock].db].log)
  {
    assert ConnAt(s.gov, s.hbs, sock);
    assert Busy(s.gov, sock, s.gov.clients[sock].db);
  }

  /** The client may (re)start a backup: its database is free but for itself. */
  ghost predicate MayBegin(s: Sys, sock: Sock) {
    && sock in s.hbs && sock in s.gov.clients
    && var c := s.hbs[sock];
       && Sole(s.gov, sock, c.db) && c.db != "" && (c.pc == ToStart || c.pc == ToRestart) && c.copied == []
       && var sm := s.gov.sms[c.db]; LogOk(sm.log) && !sm.inProcess && sm.log.last.None? && (sm.enabled || !sm.recovery)
  }

  lemma BeginOk(c: Client, sm: Sm, checkp: bool)
    requires LogOk(sm.log) && !sm.inProcess && sm.log.last.None? && (sm.enabled || !sm.recovery)
    requires (c.pc == ToStart || c.pc == ToRestart) && c.copied == []
    ensures var (sm', answer) := StartSm(sm, checkp, c.incr);
      && LogOk(sm'.log)
      && match answer
         case Hold => ConnOk(Info(Waiting, c.db, []), React(c, Wait), sm')
         case Go => ConnOk(Info(if c.incr == StopIncr then Ending else Archiving, c.db, []), React(c, Cont(Some(Data))), sm')
         case Refuse => IdleSm(AbandonSm(sm')) && LogOk(AbandonSm(sm').log)
  {
  }

  /** A start request whose database is free, first or repeated. */
  lemma BeginInv(s: Sys, sock: Sock, checkp: bool)
    requires Inv(s) && MayBegin(s, sock)
    ensures var (g, r) := Begin(s.gov, sock, s.hbs[sock].db, [], checkp, s.hbs[sock].incr);
      Inv(Answered(s, sock, g, React(s.hbs[sock], r)))
  {
    var c := s.hbs[sock];
    BeginOk(c, s.gov.sms[c.db], checkp);
    var (sm, answer) := StartSm(s.gov.sms[c.db], checkp, c.incr);
    if answer == Hold {
      Put(s, sock, Info(Waiting, c.db, []), React(c, Wait), sm);
    } else if answer == Go {
      Put(s, sock, Info(if c.incr == StopIncr then Ending else Archiving, c.db, []), React(c, Cont(Some(Data))), sm);
    } else {
      Remove(s, sock, c.db, AbandonSm(sm), Record(React(c, Err), LogOf(s.gov, c.db)));
    }
  }

  lemma StartInv(s: Sys, sock: Sock)
    requires Inv(s) && Enabled(s, Ask(sock)) && s.gov.clients[sock].status == Starting
    ensures Inv(Apply(s, Ask(sock)))
  {
    var c := s.hbs[sock];
    assert ConnAt(s.gov, s.hbs, sock) && Fresh(s.gov.clients[sock], c);
    if Taken(s.gov, c.db) || c.db !in s.gov.sms {
      RemoveFresh(s, sock, Record(React(c, Err), LogOf(s.gov, c.db)));
    } else {
      forall k ensures !Busy(s.gov, k, c.db) {
        assert k in s.gov.clients ==> s.gov.clients[k].db != c.db;
      }
      BeginInv(s, sock, c.checkp);
    }
  }

  lemma RestartInv(s: Sys, sock: Sock)
    requires Inv(s) && Enabled(s, Ask(sock)) && s.gov.clients[sock].status == Waiting
    ensures Inv(Apply(s, Ask(sock)))
  {
    SoleBusy(s, sock);
    BeginInv(s, sock, false);
  }

  lemma ArchiveOk(i: Info, c: Client, sm: Sm)
    requires ConnOk(i, c, sm) && LogOk(sm.log) && i.status == Archiving
    ensures var log := ArchiveLog(sm.log);
      var files := i.files + [Config] + Chain(log, LastArchived(log));
      && LogOk(log)
      && ConnOk(i.(status := Sending, files := files[1..]), React(c, Cont(Some(files[0]))), sm.(log := log))
  {
    var log := ArchiveLog(sm.log);
    var chain := Chain(log, LastArchived(log));
    var files := i.files + [Config] + chain;
    assert files == [Config] + chain && files[1..] == chain;
  }

  lemma ArchiveInv(s: Sys, sock: Sock)
    requires Inv(s) && Enabled(s, Ask(sock)) && s.gov.clients[sock].status == Archiving
    ensures Inv(Apply(s, Ask(sock)))
  {
    SoleBusy(s, sock);
    var i, c := s.gov.clients[sock], s.hbs[sock];
    var sm := s.gov.sms[i.db];
    ArchiveOk(i, c, sm);
    var log := ArchiveLog(sm.log);
    var files := i.files + [Config] + Chain(log, LastArchived(log));
    Put(s, sock, i.(status := Sending, files := files[1..]), React(c, Cont(Some(files[0]))), sm.(log := log));
  }

  lemma NextInv(s: Sys, sock: Sock)
    requires Inv(s) && Enabled(s, Ask(sock)) && s.gov.clients[sock].status == Sending
    ensures Inv(Apply(s, Ask(sock)))
  {
    SoleBusy(s, sock);
    var i, c := s.gov.clients[sock], s.hbs[sock];
    var sm := s.gov.sms[i.db];
    assert s.gov.sms[i.db := sm] == s.gov.sms;
    if i.files == [] {
      assert c.copied + i.files == c.copied;
      Put(s, sock, i.(status := Ending), React(c, Cont(None)), sm);
    } else {
      assert c.copied + i.files == c.copied + [i.files[0]] + i.files[1..];
      Put(s, sock, i.(files := i.files[1..]), React(c, Cont(Some(i.files[0]))), sm);
    }
  }

  lemma EndOk(i: Info, c: Client, sm: Sm)
    requires ConnOk(i, c, sm) && LogOk(sm.log) && i.status == Ending
    ensures IdleSm(EndSm(sm)) && LogOk(EndSm(sm).log) && EndedOk(Record(React(c, Ended), sm.log))
  {
    if c.incr != StopIncr {
      LogsInOrder(sm.log);
    }
  }

  lemma EndApply(s: Sys, sock: Sock, db: Db)
    requires Enabled(s, Ask(sock)) && s.gov.clients[sock].status == Ending && NextRequest(s.hbs[sock]) == End
    requires s.gov.clients[sock].db == s.hbs[sock].db == db && db in s.gov.sms
    ensures Apply(s, Ask(sock)) ==
      Sys(Gov(s.gov.clients - {sock}, s.gov.sms[db := EndSm(s.gov.sms[db])]), Gone, s.hbs - {sock},
          s.ended + [Record(React(s.hbs[sock], Ended), s.gov.sms[db].log)])
  {
  }

  lemma EndInv(s: Sys, sock: Sock)
    requires Inv(s) && Enabled(s, Ask(sock)) && s.gov.clients[sock].status == Ending
    ensures Inv(Apply(s, Ask(sock)))
  {
    SoleBusy(s, sock);
    var i, c := s.gov.clients[sock], s.hbs[sock];
    var sm := s.gov.sms[i.db];
    EndOk(i, c, sm);
    EndApply(s, sock, i.db);
    Remove(s, sock, i.db, EndSm(sm), Record(React(c, Ended), sm.log));
  }
}
