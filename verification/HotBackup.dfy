/**
 Hot backup: the backup client (se_hb), the governor and one storage manager per
 database, as communicating automata. The client drives; the governor checks the order
 of requests and keeps the queue of file names; the storage manager disables checkpoints
 and archives the logical log.
 */
module HotBackup {

  datatype Option<T> = None | Some(value: T)

  type Db = string
  type Sock = nat

  datatype Incr = StartIncr | AddIncr | StopIncr | NoneIncr

  // Storage manager

  /** The logical log: files first..cur exist; `empty` says that nothing was logged since
      cur was begun; files below nextArch (if not zero) are in the backup already; `last`
      is the file archived by the backup in progress. */
  datatype Log = Log(first: nat, cur: nat, empty: bool, nextArch: nat, last: Option<nat>, incr: Incr)

  datatype Sm = Sm(recovery: bool, inProcess: bool, enabled: bool, checkpointing: bool, log: Log)

  datatype Answer = Go | Hold | Refuse

  /** hbProcessStartRequest of the storage manager */
  function StartSm(sm: Sm, checkp: bool, incr: Incr): (Sm, Answer) {
    if sm.recovery then (sm, Refuse)
    else if checkp then (sm.(checkpointing := sm.checkpointing || sm.enabled, enabled := false), Hold)
    else if sm.checkpointing then (sm.(enabled := false), Hold)
    else
      (sm.(enabled := false, inProcess := true, log := sm.log.(incr := incr)),
       if incr == AddIncr && sm.log.nextArch == 0 then Refuse else Go)
  }

  /** llHbArchive: the current file is closed, unless nothing was written to it. */
  function ArchiveLog(log: Log): Log {
    var next := if log.incr == StartIncr || log.incr == NoneIncr then 0 else log.nextArch;
    if log.empty then log.(nextArch := next, last := Some(if log.cur > 0 then log.cur - 1 else 0))
    else log.(nextArch := next, last := Some(log.cur), cur := log.cur + 1, empty := true)
  }

  function LastArchived(log: Log): Option<nat> {
    if log.last.Some? && log.last.value >= log.nextArch then log.last else None
  }

  function PrevArchived(log: Log, n: nat): Option<nat> {
    if n == log.nextArch || log.first >= n then None else Some(n - 1)
  }

  function EndLog(log: Log): Log {
    log.(nextArch := if log.incr == StopIncr || log.incr == NoneIncr || log.last.None? then 0 else log.last.value + 1,
         last := None, incr := NoneIncr)
  }

  /** ResetHbState: nothing happens unless a backup got under way. */
  function EndSm(sm: Sm): Sm {
    if sm.inProcess then sm.(inProcess := false, enabled := true, log := EndLog(sm.log)) else sm
  }

  function AbandonSm(sm: Sm): Sm {
    if sm.inProcess then sm.(inProcess := false, enabled := true, log := sm.log.(last := None, incr := NoneIncr)) else sm
  }

  // Governor

  datatype File = Data | Config | LogFile(number: nat)

  datatype Status = Starting | Waiting | Archiving | Sending | Ending

  datatype Info = Info(status: Status, db: Db, files: seq<File>)

  datatype Gov = Gov(clients: map<Sock, Info>, sms: map<Db, Sm>)

  datatype Request = Start(checkp: bool, incr: Incr, db: Db) | Archive | NextFile | End

  datatype Response = Wait | Cont(file: Option<File>) | Ended | Err

  /** The log files from n down, as the storage manager is asked for them one by one. */
  function Chain(log: Log, n: Option<nat>): seq<File>
    decreases if n.Some? then n.value + 1 else 0
  {
    if n.None? then [] else [LogFile(n.value)] + Chain(log, PrevArchived(log, n.value))
  }

  predicate Taken(g: Gov, db: Db) {
    exists s :: s in g.clients && g.clients[s].db == db
  }

  function Erased(g: Gov, sock: Sock): Gov {
    g.(clients := g.clients - {sock})
  }

  /** hbProcessErrorHbp: the storage manager is told unless the backup had not begun. */
  function Dropped(g: Gov, sock: Sock): Gov
    requires sock in g.clients
  {
    var i := g.clients[sock];
    var g := Erased(g, sock);
    if i.status == Starting || i.db !in g.sms then g else g.(sms := g.sms[i.db := AbandonSm(g.sms[i.db])])
  }

  /** The connection whose record the handler's static pointers refer to: the one whose
      request was taken last, unless that record has been erased since. */
  datatype Served = Nobody | At(sock: Sock) | Gone

  /** hbProcessErrorHbp after a failed receive. The pointers have not been set for this
      message, so status and database are those of the connection served last; without a
      live one the outcome is undefined. */
  function Lost(g: Gov, served: Served, sock: Sock): Option<Gov> {
    if served.At? && served.sock in g.clients then
      var i := g.clients[served.sock];
      var g := Erased(g, sock);
      Some(if i.status == Starting || i.db !in g.sms then g else g.(sms := g.sms[i.db := AbandonSm(g.sms[i.db])]))
    else None
  }

  /** Where the pointers refer to after a request on this connection. */
  function Pointed(g: Gov, sock: Sock): Served {
    if sock in g.clients then At(sock) else Gone
  }

  /** A start request once the database is known. */
  function Begin(g: Gov, sock: Sock, db: Db, files: seq<File>, checkp: bool, incr: Incr): (Gov, Response)
    requires sock in g.clients && db in g.sms
  {
    var (sm, answer) := StartSm(g.sms[db], checkp, incr);
    match answer
    case Hold => (Gov(g.clients[sock := Info(Waiting, db, files)], g.sms[db := sm]), Wait)
    case Go =>
      var status := if incr == StopIncr then Ending else Archiving;
      (Gov(g.clients[sock := Info(status, db, files)], g.sms[db := sm]), Cont(Some(Data)))
    case Refuse => (Gov(g.clients - {sock}, g.sms[db := AbandonSm(sm)]), Err)
  }

  /** hbProcessMessage: a request from the client on this connection. Err closes it. */
  function Serve(g: Gov, sock: Sock, req: Request): (Gov, Response)
    requires sock in g.clients
  {
    var i := g.clients[sock];
    match req
    case Start(checkp, incr, db) =>
      if i.status == Waiting && i.db in g.sms then Begin(g, sock, i.db, i.files, false, incr)
      else if i.status == Starting && !Taken(g, db) && db in g.sms then Begin(g, sock, db, i.files, checkp, incr)
      else (Dropped(g, sock), Err)
    case Archive =>
      if i.status == Archiving && i.db in g.sms then
        var sm := g.sms[i.db];
        var log := ArchiveLog(sm.log);
        var files := i.files + [Config] + Chain(log, LastArchived(log));
        (Gov(g.clients[sock := i.(status := Sending, files := files[1..])], g.sms[i.db := sm.(log := log)]),
         Cont(Some(files[0])))
      else (Dropped(g, sock), Err)
    case NextFile =>
      if i.status != Sending then (Dropped(g, sock), Err)
      else if i.files == [] then (g.(clients := g.clients[sock := i.(status := Ending)]), Cont(None))
      else (g.(clients := g.clients[sock := i.(files := i.files[1..])]), Cont(Some(i.files[0])))
    case End =>
      if i.status == Ending && i.db in g.sms then
        (Gov(g.clients - {sock}, g.sms[i.db := EndSm(g.sms[i.db])]), Ended)
      else (Dropped(g, sock), Err)
  }

  // Backup client

  datatype Pc = ToStart | ToRestart | ToArchive | ToNext | ToEnd | Finished | Failed

  /** A run of se_hb: what it was asked to do, where it is, and the files it has copied. */
  datatype Client = Client(db: Db, incr: Incr, checkp: bool, pc: Pc, copied: seq<File>)

  function NextRequest(c: Client): Request {
    match c.pc
    case ToStart => Start(c.checkp, c.incr, c.db)
    case ToRestart => Start(c.checkp, c.incr, c.db)
    case ToArchive => Archive
    case ToNext => NextFile
    case _ => End
  }

  function Copy(c: Client, f: Option<File>): Client {
    if f.Some? then c.(copied := c.copied + [f.value]) else c
  }

  function React(c: Client, r: Response): Client {
    match r
    case Err => c.(pc := Failed)
    case Wait => c.(pc := ToRestart)
    case Ended => c.(pc := if c.pc == ToEnd then Finished else ToEnd)
    case Cont(f) =>
      match c.pc
      case ToStart => Started(c, f)
      case ToRestart => Started(c, f)
      case ToArchive => Copy(c, f).(pc := if f.Some? then ToNext else ToEnd)
      case ToNext => Copy(c, f).(pc := if f.Some? then ToNext else ToEnd)
      case _ => c.(pc := Failed)
  }

  /** The data file is copied, except for an increment. */
  function Started(c: Client, f: Option<File>): Client {
    if c.incr == StopIncr then c.(pc := ToEnd)
    else if c.incr == AddIncr then c.(pc := ToArchive)
    else Copy(c, f).(pc := ToArchive)
  }

  // The system

  /** What is known of a client that is through: its last state, and the log of its
      database at its last request. */
  datatype Record = Record(client: Client, log: Log)

  datatype Sys = Sys(gov: Gov, served: Served, hbs: map<Sock, Client>, ended: seq<Record>)

  datatype Step =
    | Connect(sock: Sock, db: Db, incr: Incr, checkp: bool)
    | Ask(sock: Sock)
    | Write(db: Db, cur: nat)
    | Activate(db: Db)
    | Finish(db: Db, first: nat)
    | Lose(sock: Sock)

  function SetSm(s: Sys, db: Db, sm: Sm): Sys {
    s.(gov := s.gov.(sms := s.gov.sms[db := sm]))
  }

  function LogOf(g: Gov, db: Db): Log {
    if db in g.sms then g.sms[db].log else Log(0, 0, false, 0, None, NoneIncr)
  }

  /** Checkpoints start only while enabled; a finishing one drops log files, though never
      one the next increment needs. */
  predicate Enabled(s: Sys, step: Step) {
    match step
    case Connect(sock, db, _, _) => sock !in s.gov.clients && db != ""
    case Ask(sock) => sock in s.gov.clients && sock in s.hbs
    case Write(db, cur) => db in s.gov.sms && cur >= s.gov.sms[db].log.cur
    case Activate(db) => db in s.gov.sms && s.gov.sms[db].enabled
    case Finish(db, first) =>
      && db in s.gov.sms && s.gov.sms[db].checkpointing
      && var log := s.gov.sms[db].log; log.first <= first <= log.cur && (log.nextArch != 0 ==> first <= log.nextArch)
    case Lose(sock) => sock in s.gov.clients && sock in s.hbs && Lost(s.gov, s.served, sock).Some?
  }

  /** The state after a request on this connection has been answered. */
  function Answered(s: Sys, sock: Sock, g: Gov, c: Client): Sys
    requires sock in s.hbs
  {
    if sock in g.clients then s.(gov := g, served := At(sock), hbs := s.hbs[sock := c])
    else Sys(g, Gone, s.hbs - {sock}, s.ended + [Record(c, LogOf(s.gov, c.db))])
  }

  function Apply(s: Sys, step: Step): Sys
    requires Enabled(s, step)
  {
    match step
    case Connect(sock, db, incr, checkp) =>
      s.(gov := s.gov.(clients := s.gov.clients[sock := Info(Starting, "", [])]),
         hbs := s.hbs[sock := Client(db, incr, checkp, ToStart, [])])
    case Ask(sock) =>
      var (g, r) := Serve(s.gov, sock, NextRequest(s.hbs[sock]));
      Answered(s, sock, g, React(s.hbs[sock], r))
    case Write(db, cur) =>
      var sm := s.gov.sms[db];
      SetSm(s, db, sm.(log := sm.log.(cur := cur, empty := false)))
    case Activate(db) => SetSm(s, db, s.gov.sms[db].(checkpointing := true))
    case Finish(db, first) =>
      var sm := s.gov.sms[db];
      SetSm(s, db, sm.(checkpointing := false, log := sm.log.(first := first, empty := false)))
    case Lose(sock) =>
      s.(gov := Lost(s.gov, s.served, sock).value, hbs := s.hbs - {sock},
         served := if s.served == At(sock) then Gone else s.served)
  }
}
