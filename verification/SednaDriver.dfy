/**
 The C driver's connection object: fields updated call by call, receive loops, the local
 data buffer. Each call is proved to do to the world what the session model says.
 */
module SednaDriver {
  import opened Sp
  import opened Session

  const SEDNA_ERROR: int := -1
  /** Not a return value: the call waits for a message that will not come. */
  const HANGS: int := -2

  /** The end of an item, taken in by getData. */
  function EndTaken(c: Conn, m: Reply): (Conn, bool) {
    match m
    case ItemEnd => (c.(keeps := false), true)
    case ResultEnd => (c.(resultEnd := true, keeps := false), true)
    case ErrorResponse => (c.(active := false, resultEnd := true, keeps := false), false)
    case _ => (Failure(c).(resultEnd := true, keeps := false), false)
  }

  predicate Ended(m: Reply) {
    m.ItemEnd? || m.ResultEnd?
  }

  /** One message of a fetch. */
  lemma FetchStep(c: Conn, ch: seq<Reply>, b: nat, got: seq<Byte>)
    requires b > 0 && c.keeps && ch != []
    ensures var m := ch[0];
      Fetch(c, ch, b, got) ==
        if m.ItemPart? && |m.data| > b then (c.(local := m.data[b..]), ch[1..], Got(got + m.data[..b]))
        else if m.ItemPart? then Fetch(c, ch[1..], b - |m.data|, got + m.data)
        else (EndTaken(c, m).0, ch[1..], if Ended(m) then Got(got) else Error)
  {
  }

  /** The value returned and the buffer filled report this outcome. */
  ghost predicate Reports(rc: int, buf: array<Byte>, code: Code)
    reads buf
  {
    match code
    case Got(bytes) => rc == |bytes| <= buf.Length && buf[..rc] == bytes
    case Blocked => rc == HANGS
    case _ => rc == SEDNA_ERROR
  }

  class SednaConnection {
    var isInTransaction: bool
    var isConnectionOk: bool
    var socketKeepsData: bool
    var resultEnd: bool
    var inQuery: bool
    var firstNext: bool
    var localDataBuf: seq<Byte>
    var localDataLength: nat
    var localDataOffset: nat
    var msg: Reply

    // The peer and the messages on their way from it
    var server: Server
    var channel: seq<Reply>

    ghost predicate Valid()
      reads this
    {
      |localDataBuf| == BUF && localDataOffset <= localDataLength <= BUF
    }

    ghost function Fields(): Conn
      requires Valid()
      reads this
    {
      Conn(isInTransaction, isConnectionOk, socketKeepsData, resultEnd, inQuery, firstNext,
           localDataBuf[localDataOffset..localDataLength])
    }

    ghost function View(): World
      requires Valid()
      reads this
    {
      World(Fields(), server, channel)
    }

    constructor (commits: nat)
      ensures Valid() && View() == Opened(commits)
    {
      isInTransaction, isConnectionOk, socketKeepsData := false, true, false;
      resultEnd, inQuery, firstNext := false, false, false;
      localDataBuf := seq(BUF, _ => 0);
      localDataLength, localDataOffset := 0, 0;
      msg := ErrorResponse;
      server, channel := Server(false, false, commits), [];
    }

    /** The next message; none if the server is waiting too, and then the call hangs. */
    method Recv() returns (arrived: bool)
      requires Valid()
      modifies this`msg, this`channel
      ensures Valid() && arrived == (old(channel) != [])
      ensures arrived ==> msg == old(channel)[0] && channel == old(channel)[1..]
      ensures !arrived ==> channel == []
    {
      arrived := channel != [];
      if arrived {
        msg, channel := channel[0], channel[1..];
      }
    }

    method SendRequest(req: Request, o: Oracle)
      requires Valid()
      modifies this`server, this`channel
      ensures Valid() && View() == Send(old(View()), req, o)
    {
      var (s, rs) := Handle(server, req, o);
      server, channel := s, channel + rs;
    }

    method ConnectionFailure()
      requires Valid()
      modifies this`isInTransaction, this`isConnectionOk
      ensures Valid() && Fields() == Failure(old(Fields()))
    {
      isInTransaction, isConnectionOk := false, false;
    }

    method SkipItem() returns (arrived: bool)
      requires Valid()
      modifies this`msg, this`channel
      ensures Valid() && arrived == (Skip(old(channel)) != [])
      ensures arrived ==> msg == Skip(old(channel))[0] && channel == Skip(old(channel))[1..]
      ensures !arrived ==> channel == []
    {
      arrived := Recv();
      while arrived && !msg.ItemEnd? && !msg.ResultEnd? && !msg.ErrorResponse?
        invariant Valid() && (if arrived then Skip([msg] + channel) == Skip(old(channel)) else Skip(old(channel)) == [] == channel)
        decreases |channel|, arrived
      {
        assert ([msg] + channel)[1..] == channel;
        arrived := Recv();
        assert arrived ==> [msg] + channel == [msg] + channel[0..];
      }
    }

    method CleanSocket() returns (r: Cleaning)
      requires Valid()
      modifies this
      ensures Valid() && server == old(server)
      ensures (Fields(), channel, r) == Clean(old(Fields()), old(channel))
    {
      localDataLength, localDataOffset := 0, 0;
      if !socketKeepsData {
        return Clear;
      }
      var arrived := SkipItem();
      if !arrived {
        return Stuck;
      }
      if msg.ErrorResponse? {
        ConnectionFailure();
        return Failed;
      }
      socketKeepsData := false;
      if msg.ResultEnd? {
        resultEnd := true;
      }
      return Clear;
    }

    method TakeBegin(m: Reply) returns (code: Code)
      requires Valid()
      modifies this`inQuery, this`isInTransaction, this`isConnectionOk
      ensures Valid() && (Fields(), code) == BeginTaken(old(Fields()), m)
    {
      if m.ErrorResponse? || m.BeginFailed? {
        return BeginRefused;
      } else if m.BeginOk? {
        inQuery, isInTransaction := false, true;
        return BeginSucceeded;
      } else {
        ConnectionFailure();
        return BeginRefused;
      }
    }

    method TakeCommit(m: Reply) returns (code: Code)
      requires Valid()
      modifies this`isInTransaction, this`isConnectionOk
      ensures Valid() && (Fields(), code) == CommitTaken(old(Fields()), m)
    {
      if m.ErrorResponse? || m.CommitFailed? {
        return CommitRefused;
      } else if m.CommitOk? {
        return CommitSucceeded;
      } else {
        ConnectionFailure();
        return CommitRefused;
      }
    }

    method TakeRollback(m: Reply) returns (code: Code)
      requires Valid()
      modifies this`inQuery, this`isInTransaction, this`isConnectionOk
      ensures Valid() && (Fields(), code) == RollbackTaken(old(Fields()), m)
    {
      if m.ErrorResponse? || m.RollbackFailed? {
        return RollbackRefused;
      } else if m.RollbackOk? {
        inQuery := false;
        return RollbackSucceeded;
      } else {
        ConnectionFailure();
        return RollbackRefused;
      }
    }

    /** Moves data into the local buffer. */
    method Store(data: seq<Byte>)
      requires Valid() && |data| <= BUF
      modifies this`localDataLength, this`localDataOffset, this`localDataBuf
      ensures Valid() && Fields() == old(Fields()).(local := data)
    {
      localDataBuf := data + localDataBuf[|data|..];
      localDataLength, localDataOffset := |data|, 0;
    }

    method TakeItem(m: Reply) returns (code: Code)
      requires Valid()
      modifies this`localDataBuf, this`localDataLength, this`localDataOffset, this`socketKeepsData, this`resultEnd,
               this`inQuery, this`isInTransaction, this`isConnectionOk
      ensures Valid() && (Fields(), code) == ItemTaken(old(Fields()), m)
    {
      if m.ErrorResponse? {
        socketKeepsData, resultEnd, inQuery, isInTransaction := false, true, false, false;
        return QueryRefused;
      } else if m.ItemPart? || m.ItemStart? {
        Store(m.data);
        socketKeepsData, resultEnd, inQuery := true, false, true;
        return QueryDone;
      } else if m.ItemEnd? || m.ResultEnd? {
        localDataLength, localDataOffset := 0, 0;
        socketKeepsData, resultEnd, inQuery := false, m.ResultEnd?, true;
        return QueryDone;
      } else {
        ConnectionFailure();
        localDataLength, localDataOffset := 0, 0;
        socketKeepsData, resultEnd, inQuery := false, true, false;
        return QueryRefused;
      }
    }

    method TakeStatement(m: Reply) returns (code: Code)
      requires Valid()
      modifies this`inQuery, this`isInTransaction, this`isConnectionOk
      ensures Valid() && (Fields(), code) == StatementTaken(old(Fields()), m)
    {
      if m.ErrorResponse? {
        isInTransaction := false;
        return Error;
      } else if m.QueryFailed? || m.UpdateFailed? {
        inQuery, isInTransaction := false, false;
        return if m.QueryFailed? then QueryRefused else UpdateRefused;
      } else if m.UpdateSucceeded? {
        inQuery := false;
        return UpdateDone;
      } else {
        ConnectionFailure();
        return Error;
      }
    }

    method ResultQueryHandler() returns (code: Code)
      requires Valid()
      modifies this
      ensures Valid() && (View(), code) == ItemReply(old(View()))
    {
      var arrived := Recv();
      if !arrived {
        return Blocked;
      }
      code := TakeItem(msg);
    }

    method HandleExecuteResult() returns (code: Code)
      requires Valid()
      modifies this
      ensures Valid() && (View(), code) == ExecuteReply(old(View()))
    {
      var arrived := Recv();
      if !arrived {
        return Blocked;
      }
      if msg.QuerySucceeded? {
        code := ResultQueryHandler();
        if code != Blocked {
          firstNext := true;
        }
      } else {
        code := TakeStatement(msg);
      }
    }

    method BeginHandler(o: Oracle) returns (code: Code)
      requires Valid()
      modifies this
      ensures Valid() && (View(), code) == Exchange(old(View()), Begin, o)
    {
      SendRequest(BeginTransaction, o);
      var arrived := Recv();
      if !arrived {
        return Blocked;
      }
      code := TakeBegin(msg);
    }

    method CommitHandler(o: Oracle) returns (code: Code)
      requires Valid() && !inQuery
      modifies this
      ensures Valid() && (View(), code) == Exchange(old(View()), Commit, o)
    {
      isInTransaction := false;
      SendRequest(CommitTransaction, o);
      var arrived := Recv();
      if !arrived {
        return Blocked;
      }
      code := TakeCommit(msg);
    }

    method RollbackHandler(o: Oracle) returns (code: Code)
      requires Valid()
      modifies this
      ensures Valid() && (View(), code) == Exchange(old(View()), Rollback, o)
    {
      isInTransaction := false;
      SendRequest(RollbackTransaction, o);
      var arrived := Recv();
      if !arrived {
        return Blocked;
      }
      code := TakeRollback(msg);
    }

    method SEbegin(o: Oracle) returns (code: Code)
      requires Valid()
      modifies this
      ensures Valid() && (View(), code) == Perform(old(View()), Begin, o)
    {
      if !isConnectionOk {
        return Error;
      }
      var cleaned := CleanSocket();
      if cleaned != Clear {
        return if cleaned == Stuck then Blocked else Error;
      }
      code := BeginHandler(o);
    }

    method SEcommit(o: Oracle) returns (code: Code)
      requires Valid()
      modifies this
      ensures Valid() && (View(), code) == Perform(old(View()), Commit, o)
    {
      if !isConnectionOk {
        return Error;
      }
      var cleaned := CleanSocket();
      if cleaned != Clear {
        return if cleaned == Stuck then Blocked else Error;
      }
      inQuery := false;
      code := CommitHandler(o);
    }

    method SErollback(o: Oracle) returns (code: Code)
      requires Valid()
      modifies this
      ensures Valid() && (View(), code) == Perform(old(View()), Rollback, o)
    {
      if !isConnectionOk {
        return Error;
      }
      var cleaned := CleanSocket();
      if cleaned != Clear {
        return if cleaned == Stuck then Blocked else Error;
      }
      code := RollbackHandler(o);
    }

    method SEexecute(o: Oracle) returns (code: Code)
      requires Valid()
      modifies this
      ensures Valid() && (View(), code) == Perform(old(View()), Execute, o)
    {
      if !isConnectionOk {
        return Error;
      }
      var cleaned := CleanSocket();
      if cleaned != Clear {
        return if cleaned == Stuck then Blocked else Error;
      }
      SendRequest(ExecuteQuery, o);
      code := HandleExecuteResult();
    }

    method NextHandler(o: Oracle) returns (code: Code)
      requires Valid()
      modifies this
      ensures Valid() && (View(), code) == Exchange(old(View()), Next, o)
    {
      SendRequest(GetNextItem, o);
      code := ResultQueryHandler();
      if code == Blocked {
        return;
      }
      code := if code == QueryRefused then NextRefused else if resultEnd then AtEnd else NextDone;
    }

    method SEnext(o: Oracle) returns (code: Code)
      requires Valid()
      modifies this
      ensures Valid() && (View(), code) == Perform(old(View()), Next, o)
    {
      if !isConnectionOk {
        return Error;
      }
      if !inQuery {
        return NoItem;
      }
      if resultEnd {
        return AtEnd;
      }
      if firstNext {
        firstNext := false;
        return NextDone;
      }
      var cleaned := CleanSocket();
      if cleaned != Clear {
        return if cleaned == Stuck then Blocked else Error;
      }
      code := NextHandler(o);
    }

    /** Copies the local data out, from position p of the caller's buffer on. */
    method Pour(buf: array<Byte>, p: nat, data: seq<Byte>)
      requires p + |data| <= buf.Length
      modifies buf
      ensures buf[..p + |data|] == old(buf[..p]) + data
    {
      forall k | 0 <= k < |data| {
        buf[p + k] := data[k];
      }
    }

    /** The outcome of a message received while b > 0 bytes are wanted: done with the
        value to return, or not done with p and b advanced. */
    method TakeData(m: Reply, buf: array<Byte>, p: nat, b: nat) returns (done: bool, rc: int, n: nat)
      requires Valid() && localDataLength == 0 && b > 0 && p + b <= buf.Length
      modifies this`localDataBuf, this`localDataLength, this`localDataOffset, this`socketKeepsData,
               this`resultEnd, this`isInTransaction, this`isConnectionOk, buf
      ensures Valid() && n <= b
      ensures !done ==> m.ItemPart? && n == |m.data| && Fields() == old(Fields()) && buf[..p + n] == old(buf[..p]) + m.data
      ensures done && m.ItemPart? ==>
        && |m.data| > b && Fields() == old(Fields()).(local := m.data[b..])
        && rc == p + b && buf[..p + b] == old(buf[..p]) + m.data[..b]
      ensures done && !m.ItemPart? ==>
        && (Fields(), Ended(m)) == EndTaken(old(Fields()), m)
        && buf[..] == old(buf[..]) && rc == (if Ended(m) then p else SEDNA_ERROR)
    {
      done, rc, n := true, SEDNA_ERROR, 0;
      if m.ErrorResponse? {
        isInTransaction, resultEnd, socketKeepsData := false, true, false;
      } else if m.ItemPart? {
        if |m.data| > b {
          Pour(buf, p, m.data[..b]);
          Store(m.data[b..]);
          rc := p + b;
        } else {
          Pour(buf, p, m.data);
          done, n := false, |m.data|;
        }
      } else if m.ItemEnd? {
        socketKeepsData, rc := false, p;
      } else if m.ResultEnd? {
        resultEnd, socketKeepsData, rc := true, false, p;
      } else {
        ConnectionFailure();
        resultEnd, socketKeepsData := true, false;
      }
    }

    /** Delivers what the session model says into the caller's buffer. */
    method SEgetData(buf: array<Byte>, bytesToRead: int) returns (rc: int)
      requires Valid() && bytesToRead <= buf.Length
      modifies this, buf
      ensures Valid() && View() == GetData(old(View()), bytesToRead).0
      ensures Reports(rc, buf, GetData(old(View()), bytesToRead).1)
    {
      if !isConnectionOk {
        return SEDNA_ERROR;
      }
      if !inQuery || resultEnd {
        return 0;
      }
      if bytesToRead < 0 {
        resultEnd, socketKeepsData := true, false;
        return SEDNA_ERROR;
      }
      rc := Deliver(buf, bytesToRead);
    }

    /** Waits for a message of the item and takes it in. */
    method Receive(buf: array<Byte>, p: nat, b: nat) returns (done: bool, rc: int, n: nat)
      requires Valid() && localDataLength == 0 && b > 0 && p + b <= buf.Length && socketKeepsData
      modifies this, buf
      ensures Valid() && server == old(server) && n <= b
      ensures var (c, ch, code) := Fetch(old(Fields()), old(channel), b, old(buf[..p]));
        if done then Fields() == c && channel == ch && Reports(rc, buf, code)
        else
          && Fields() == old(Fields()) && |channel| < |old(channel)|
          && (c, ch, code) == Fetch(Fields(), channel, b - n, buf[..p + n])
    {
      ghost var c, ch, got := Fields(), channel, buf[..p];
      var arrived := Recv();
      if !arrived {
        return true, HANGS, 0;
      }
      FetchStep(c, ch, b, got);
      assert Fields() == c;
      done, rc, n := TakeData(msg, buf, p, b);
      assert buf[..] == old(buf[..]) ==> buf[..p] == got;
    }

    /** Serves the caller from the local buffer: entirely, or as far as it goes. The first
        case writes at the start of the caller's buffer, so nothing may be there yet. */
    method UseLocal(buf: array<Byte>, p: nat, b: nat) returns (done: bool, n: nat)
      requires Valid() && b > 0 && p + b <= buf.Length
      requires p > 0 ==> localDataOffset == localDataLength
      modifies this`localDataLength, this`localDataOffset, buf
      ensures Valid() && n <= b
      ensures done ==> p == 0 && n == b && (Fields(), channel, Got(buf[..b])) == Continue(old(Fields()), channel, b, old(buf[..p]))
      ensures !done ==> n < b && localDataLength == 0 && Fields() == old(Fields()).(local := [])
      ensures !done ==> Fetch(Fields(), channel, b - n, buf[..p + n]) == Continue(old(Fields()), channel, b, old(buf[..p]))
    {
      var local := localDataBuf[localDataOffset..localDataLength];
      if b <= |local| {
        Pour(buf, 0, local[..b]);
        localDataOffset := localDataOffset + b;
        return true, b;
      }
      Pour(buf, p, local);
      localDataLength, localDataOffset := 0, 0;
      return false, |local|;
    }

    /** One round: what the local buffer has, and then a message if more is wanted. */
    method DeliverSome(buf: array<Byte>, p: nat, b: nat) returns (done: bool, rc: int, n: nat)
      requires Valid() && b > 0 && p + b <= buf.Length
      requires p > 0 ==> localDataOffset == localDataLength
      modifies this, buf
      ensures Valid() && server == old(server) && n <= b
      ensures var (c, ch, code) := Continue(old(Fields()), old(channel), b, old(buf[..p]));
        if done then Fields() == c && channel == ch && Reports(rc, buf, code)
        else
          && localDataOffset == localDataLength && |channel| < |old(channel)|
          && (c, ch, code) == Continue(Fields(), channel, b - n, buf[..p + n])
    {
      done, n := UseLocal(buf, p, b);
      if done || !socketKeepsData {
        return true, p + n, n;
      }
      var k;
      done, rc, k := Receive(buf, p + n, b - n);
      n := n + k;
      EmptyLocal(Fields(), channel, b - n, buf[..p + n]);
    }

    method Deliver(buf: array<Byte>, bytesToRead: nat) returns (rc: int)
      requires Valid() && bytesToRead <= buf.Length
      modifies this, buf
      ensures Valid() && server == old(server)
      ensures var (c, ch, code) := Continue(old(Fields()), old(channel), bytesToRead, []);
        Fields() == c && channel == ch && Reports(rc, buf, code)
    {
      ghost var target := Continue(Fields(), channel, bytesToRead, []);
      var p: nat, b: nat := 0, bytesToRead;
      while b > 0
        invariant Valid() && server == old(server) && p + b == bytesToRead
        invariant p > 0 ==> localDataOffset == localDataLength
        invariant Continue(Fields(), channel, b, buf[..p]) == target
        decreases |channel|
      {
        var done, r, n := DeliverSome(buf, p, b);
        if done {
          return r;
        }
        p, b := p + n, b - n;
      }
      rc := p;
    }
  }

  lemma EmptyLocal(c: Conn, ch: seq<Reply>, b: nat, got: seq<Byte>)
    ensures c.local == [] ==> Continue(c, ch, b, got) == Fetch(c, ch, b, got)
  {
    assert c.local == [] ==> got + c.local == got;
  }
}
