/**
 The client/server session: the calls of the C driver (begin, commit, rollback, execute,
 next, getData) against the two nested command loops of the transaction process, in
 manual-commit mode. A call is a function of the whole world (connection record, server
 position, messages in flight); what the storage and query layers decide is an oracle.
 */
module Session {
  import opened Sp

  /** What fits in one item part: a body less its five-byte header. */
  type Data = d: seq<Byte> | |d| <= BUF - 5

  datatype Reply =
    | BeginOk | BeginFailed | CommitOk | CommitFailed | RollbackOk | RollbackFailed
    | UpdateSucceeded | UpdateFailed | QuerySucceeded | QueryFailed | ErrorResponse
    | ItemStart(data: Data) | ItemPart(data: Data) | ItemEnd | ResultEnd

  datatype Request = BeginTransaction | CommitTransaction | RollbackTransaction | ExecuteQuery | GetNextItem

  // Server side

  /** inner: inside the loop over the commands of one transaction. running: a statement
      has more items to give. commits: transactions committed so far. */
  datatype Server = Server(inner: bool, running: bool, commits: nat)

  /** How producing an item ends: more to come, the last one, or an error that rolls the
      transaction back. */
  datatype Ending = More | Last | Abort

  datatype Work = Fail | Update | Answer(parts: seq<Data>, ending: Ending)

  datatype Oracle = Oracle(granted: bool, work: Work)

  function Parts(parts: seq<Data>): (rs: seq<Reply>)
    ensures |rs| == |parts| && forall i :: 0 <= i < |rs| ==> rs[i] == ItemPart(parts[i])
  {
    seq(|parts|, i requires 0 <= i < |parts| => ItemPart(parts[i]))
  }

  function Terminator(e: Ending): Reply {
    match e case More => ItemEnd case Last => ResultEnd case Abort => ErrorResponse
  }

  function Item(parts: seq<Data>, e: Ending): seq<Reply> {
    Parts(parts) + [Terminator(e)]
  }

  function Out(s: Server): Server {
    s.(inner := false, running := false)
  }

  function AfterItem(s: Server, e: Ending): Server {
    match e
    case More => s.(running := true)
    case Last => s.(running := false)
    case Abort => Out(s)
  }

  /** One command, inside a transaction or outside. */
  function Handle(s: Server, req: Request, o: Oracle): (Server, seq<Reply>) {
    if s.inner then
      match req
      case BeginTransaction => (s, [ErrorResponse])
      case CommitTransaction =>
        if o.granted then (Out(s).(commits := s.commits + 1), [CommitOk]) else (Out(s), [ErrorResponse])
      case RollbackTransaction =>
        (Out(s), [if o.granted then RollbackOk else ErrorResponse])
      case ExecuteQuery =>
        (match o.work
         case Fail => (Out(s), [ErrorResponse])
         case Update => (s.(running := false), [UpdateSucceeded])
         case Answer(parts, e) => (AfterItem(s, e), [QuerySucceeded] + Item(parts, e)))
      case GetNextItem =>
        if !s.running then (s, [])
        else if o.work.Answer? then (AfterItem(s, o.work.ending), Item(o.work.parts, o.work.ending))
        else (Out(s), [ErrorResponse])
    else if req == BeginTransaction && o.granted then
      (s.(inner := true, running := false), [BeginOk])
    else
      (s, [ErrorResponse])
  }

  // Client side

  /** local: what is left of the local data buffer. */
  datatype Conn = Conn(
    active: bool, ok: bool, keeps: bool, resultEnd: bool, inQuery: bool, firstNext: bool,
    local: seq<Byte>)

  datatype World = World(conn: Conn, server: Server, channel: seq<Reply>)

  datatype Code =
    | Error | BeginSucceeded | BeginRefused | CommitSucceeded | CommitRefused
    | RollbackSucceeded | RollbackRefused | QueryDone | QueryRefused | UpdateDone | UpdateRefused
    | NoItem | NextDone | NextRefused | AtEnd | Got(bytes: seq<Byte>) | Blocked

  function Failure(c: Conn): Conn {
    c.(active := false, ok := false)
  }

  datatype Cleaning = Clear | Failed | Stuck

  predicate Ends(r: Reply) {
    r.ItemEnd? || r.ResultEnd? || r.ErrorResponse?
  }

  /** The messages from the first that ends an item. */
  function Skip(ch: seq<Reply>): (rest: seq<Reply>)
    ensures rest != [] ==> Ends(rest[0])
  {
    if ch == [] || Ends(ch[0]) then ch else Skip(ch[1..])
  }

  /** Discards the rest of an item. */
  function Drain(c: Conn, ch: seq<Reply>): (Conn, seq<Reply>, Cleaning) {
    var rest := Skip(ch);
    if rest == [] then (c, [], Stuck)
    else
      match rest[0]
      case ItemEnd => (c.(keeps := false), rest[1..], Clear)
      case ResultEnd => (c.(keeps := false, resultEnd := true), rest[1..], Clear)
      case _ => (Failure(c), rest[1..], Failed)
  }

  /** cleanSocket */
  function Clean(c: Conn, ch: seq<Reply>): (Conn, seq<Reply>, Cleaning) {
    var c := c.(local := []);
    if c.keeps then Drain(c, ch) else (c, ch, Clear)
  }

  function Send(w: World, req: Request, o: Oracle): World {
    var (s, rs) := Handle(w.server, req, o);
    w.(server := s, channel := w.channel + rs)
  }

  /** What the client makes of the reply to a begin, a commit, a rollback. */
  function BeginTaken(c: Conn, m: Reply): (Conn, Code) {
    match m
    case ErrorResponse => (c, BeginRefused)
    case BeginFailed => (c, BeginRefused)
    case BeginOk => (c.(inQuery := false, active := true), BeginSucceeded)
    case _ => (Failure(c), BeginRefused)
  }

  function CommitTaken(c: Conn, m: Reply): (Conn, Code) {
    match m
    case ErrorResponse => (c, CommitRefused)
    case CommitFailed => (c, CommitRefused)
    case CommitOk => (c, CommitSucceeded)
    case _ => (Failure(c), CommitRefused)
  }

  function RollbackTaken(c: Conn, m: Reply): (Conn, Code) {
    match m
    case ErrorResponse => (c, RollbackRefused)
    case RollbackFailed => (c, RollbackRefused)
    case RollbackOk => (c.(inQuery := false), RollbackSucceeded)
    case _ => (Failure(c), RollbackRefused)
  }

  /** The first message of an item. */
  function ItemTaken(c: Conn, m: Reply): (Conn, Code) {
    match m
    case ErrorResponse => (c.(keeps := false, resultEnd := true, inQuery := false, active := false), QueryRefused)
    case ItemStart(d) => (c.(local := d, keeps := true, resultEnd := false, inQuery := true), QueryDone)
    case ItemPart(d) => (c.(local := d, keeps := true, resultEnd := false, inQuery := true), QueryDone)
    case ItemEnd => (c.(local := [], keeps := false, resultEnd := false, inQuery := true), QueryDone)
    case ResultEnd => (c.(local := [], keeps := false, resultEnd := true, inQuery := true), QueryDone)
    case _ => (Failure(c).(local := [], keeps := false, resultEnd := true, inQuery := false), QueryRefused)
  }

  /** The reply to a statement, other than the announcement of items. */
  function StatementTaken(c: Conn, m: Reply): (Conn, Code) {
    match m
    case ErrorResponse => (c.(active := false), Error)
    case QueryFailed => (c.(inQuery := false, active := false), QueryRefused)
    case UpdateSucceeded => (c.(inQuery := false), UpdateDone)
    case UpdateFailed => (c.(inQuery := false, active := false), UpdateRefused)
    case _ => (Failure(c), Error)
  }

  function Taken(w: World, r: (Conn, Code)): (World, Code)
    requires w.channel != []
  {
    (w.(conn := r.0, channel := w.channel[1..]), r.1)
  }

  function BeginReply(w: World): (World, Code) {
    if w.channel == [] then (w, Blocked) else Taken(w, BeginTaken(w.conn, w.channel[0]))
  }

  function CommitReply(w: World): (World, Code) {
    if w.channel == [] then (w, Blocked) else Taken(w, CommitTaken(w.conn, w.channel[0]))
  }

  function RollbackReply(w: World): (World, Code) {
    if w.channel == [] then (w, Blocked) else Taken(w, RollbackTaken(w.conn, w.channel[0]))
  }

  /** resultQueryHandler */
  function ItemReply(w: World): (World, Code) {
    if w.channel == [] then (w, Blocked) else Taken(w, ItemTaken(w.conn, w.channel[0]))
  }

  /** handle_execute_result */
  function ExecuteReply(w: World): (World, Code) {
    if w.channel == [] then (w, Blocked)
    else if w.channel[0].QuerySucceeded? then
      var (u, code) := ItemReply(w.(channel := w.channel[1..]));
      (if code == Blocked then u else u.(conn := u.conn.(firstNext := true)), code)
    else Taken(w, StatementTaken(w.conn, w.channel[0]))
  }

  function NextReply(w: World): (World, Code) {
    var (v, code) := ItemReply(w);
    (v, if code == Blocked then Blocked
        else if code == QueryRefused then NextRefused
        else if v.conn.resultEnd then AtEnd else NextDone)
  }

  /** The receiving part of getData: n more bytes are wanted and the local buffer is
      empty. Returns the bytes got, or the failure code. */
  function Fetch(c: Conn, ch: seq<Reply>, n: nat, got: seq<Byte>): (Conn, seq<Reply>, Code)
    decreases ch
  {
    if n == 0 || !c.keeps then (c, ch, Got(got))
    else if ch == [] then (c, ch, Blocked)
    else
      match ch[0]
      case ErrorResponse => (c.(active := false, resultEnd := true, keeps := false), ch[1..], Error)
      case ItemPart(d) =>
        if |d| > n then (c.(local := d[n..]), ch[1..], Got(got + d[..n]))
        else Fetch(c, ch[1..], n - |d|, got + d)
      case ItemEnd => (c.(keeps := false), ch[1..], Got(got))
      case ResultEnd => (c.(resultEnd := true, keeps := false), ch[1..], Got(got))
      case _ => (Failure(c).(resultEnd := true, keeps := false), ch[1..], Error)
  }

  /** getData with n bytes still wanted, some got already and the local buffer in any state. */
  function Continue(c: Conn, ch: seq<Reply>, n: nat, got: seq<Byte>): (Conn, seq<Reply>, Code) {
    if n == 0 then (c, ch, Got(got))
    else if n <= |c.local| then (c.(local := c.local[n..]), ch, Got(got + c.local[..n]))
    else Fetch(c.(local := []), ch, n - |c.local|, got + c.local)
  }

  function GetData(w: World, n: int): (World, Code) {
    var c := w.conn;
    if !c.ok then (w, Error)
    else if !c.inQuery || c.resultEnd then (w, Got([]))
    else if n < 0 then (w.(conn := c.(resultEnd := true, keeps := false)), Error)
    else
      var (d, ch, code) := Continue(c, w.channel, n, []);
      (w.(conn := d, channel := ch), code)
  }

  datatype Call = Begin | Commit | Rollback | Execute | Next | Read(n: int)

  /** The calls that first clear the rest of the previous item. */
  predicate Cleans(c: Conn, call: Call) {
    match call
    case Read(_) => false
    case Next => c.inQuery && !c.resultEnd && !c.firstNext
    case _ => true
  }

  function Exchange(w: World, call: Call, o: Oracle): (World, Code)
    requires !call.Read?
  {
    var c := w.conn;
    match call
    case Begin => BeginReply(Send(w, BeginTransaction, o))
    case Commit => CommitReply(Send(w.(conn := c.(inQuery := false, active := false)), CommitTransaction, o))
    case Rollback => RollbackReply(Send(w.(conn := c.(active := false)), RollbackTransaction, o))
    case Execute => ExecuteReply(Send(w, ExecuteQuery, o))
    case Next => NextReply(Send(w, GetNextItem, o))
  }

  function Perform(w: World, call: Call, o: Oracle): (World, Code) {
    if !w.conn.ok then (w, Error)
    else if call.Read? then GetData(w, call.n)
    else if call.Next? && !w.conn.inQuery then (w, NoItem)
    else if call.Next? && w.conn.resultEnd then (w, AtEnd)
    else if call.Next? && w.conn.firstNext then (w.(conn := w.conn.(firstNext := false)), NextDone)
    else
      var (c, ch, cleaned) := Clean(w.conn, w.channel);
      var v := w.(conn := c, channel := ch);
      match cleaned
      case Stuck => (v, Blocked)
      case Failed => (v, Error)
      case Clear => Exchange(v, call, o)
  }

  /** A fresh session: no transaction on either side, nothing in flight. */
  function Opened(commits: nat): World {
    World(Conn(false, true, false, false, false, false, []), Server(false, false, commits), [])
  }
}
