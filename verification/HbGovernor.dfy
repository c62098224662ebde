/**
 The governor's side of hot backup as the object it is: the table of connections and the
 handlers that update it, with their loops. Each is proved to do what Serve says.
 */
module HbGovernor {
  import opened HotBackup

  class Governor {
    var hbClients: map<Sock, Info>
    /** The storage managers, reached by messages. */
    var sms: map<Db, Sm>
    /** What the static pointers to status, database and files refer to. */
    var served: Served

    function View(): Gov
      reads this
    {
      Gov(hbClients, sms)
    }

    constructor (running: map<Db, Sm>)
      ensures View() == Gov(map[], running) && served == Nobody
    {
      hbClients, sms, served := map[], running, Nobody;
    }

    method NewClient(sock: Sock)
      requires sock !in hbClients
      modifies this`hbClients
      ensures hbClients == old(hbClients)[sock := Info(Starting, "", [])]
    {
      hbClients := hbClients[sock := Info(Starting, "", [])];
    }

    /** Whether no other connection has the database and it is running. */
    method CheckDbName(db: Db) returns (free: bool)
      ensures free == (!Taken(View(), db) && db in sms)
    {
      var left := hbClients.Keys;
      while left != {}
        invariant left <= hbClients.Keys
        invariant forall k :: k in hbClients && k !in left ==> hbClients[k].db != db
        decreases |left|
      {
        var k :| k in left;
        if hbClients[k].db == db {
          return false;
        }
        left := left - {k};
      }
      free := db in sms;
    }

    method Erase(sock: Sock)
      modifies this`hbClients, this`served
      ensures hbClients == old(hbClients) - {sock}
      ensures served == if old(served) == At(sock) then Gone else old(served)
    {
      hbClients := hbClients - {sock};
      if served == At(sock) {
        served := Gone;
      }
    }

    /** Acts on the record the pointers refer to, whoever it belongs to. */
    method ProcessErrorHbp(sock: Sock)
      requires served.At? && served.sock in hbClients
      modifies this
      ensures Some(View()) == Lost(old(View()), old(served), sock)
      ensures served == if old(served) == At(sock) then Gone else old(served)
    {
      var i := hbClients[served.sock];
      if i.status != Starting && i.db in sms {
        sms := sms[i.db := AbandonSm(sms[i.db])];
      }
      Erase(sock);
    }

    /** Sends the start request on to the storage manager. */
    method RelayStart(sock: Sock, db: Db, checkp: bool, incr: Incr) returns (r: Response)
      requires sock in hbClients && served == At(sock) && db in sms
      modifies this
      ensures (View(), r) == Begin(old(View()), sock, db, old(hbClients[sock].files), checkp, incr)
      ensures served == Pointed(View(), sock)
    {
      var i := hbClients[sock];
      var (sm, answer) := StartSm(sms[db], checkp, incr);
      if answer == Go {
        sms := sms[db := sm];
        hbClients := hbClients[sock := Info(if incr == StopIncr then Ending else Archiving, db, i.files)];
        r := Cont(Some(Data));
      } else if answer == Hold {
        sms := sms[db := sm];
        hbClients := hbClients[sock := Info(Waiting, db, i.files)];
        r := Wait;
      } else {
        sms := sms[db := AbandonSm(sm)];
        Erase(sock);
        r := Err;
      }
    }

    method ProcessStartRequest(sock: Sock, checkp: bool, incr: Incr, db: Db) returns (r: Response)
      requires sock in hbClients && served == At(sock)
      modifies this
      ensures (View(), r) == Serve(old(View()), sock, Start(checkp, incr, db))
      ensures served == Pointed(View(), sock)
    {
      var i := hbClients[sock];
      if i.status == Waiting && i.db in sms {
        r := RelayStart(sock, i.db, false, incr);
        return;
      }
      if i.status == Starting {
        var free := CheckDbName(db);
        if free {
          r := RelayStart(sock, db, checkp, incr);
          return;
        }
      }
      ProcessErrorHbp(sock);
      r := Err;
    }

    /** The archived log files, asked for one by one. */
    method RetrieveAllFileNames(log: Log) returns (files: seq<File>)
      ensures files == [Config] + Chain(log, LastArchived(log))
    {
      files := [Config];
      var n := LastArchived(log);
      while n.Some?
        invariant files + Chain(log, n) == [Config] + Chain(log, LastArchived(log))
        decreases if n.Some? then n.value + 1 else 0
      {
        assert Chain(log, n) == [LogFile(n.value)] + Chain(log, PrevArchived(log, n.value));
        files := files + [LogFile(n.value)];
        n := PrevArchived(log, n.value);
      }
    }

    method ProcessLogArchRequest(sock: Sock) returns (r: Response)
      requires sock in hbClients && served == At(sock)
      modifies this
      ensures (View(), r) == Serve(old(View()), sock, Archive)
      ensures served == Pointed(View(), sock)
    {
      var i := hbClients[sock];
      if i.status != Archiving || i.db !in sms {
        ProcessErrorHbp(sock);
        return Err;
      }
      var log := ArchiveLog(sms[i.db].log);
      sms := sms[i.db := sms[i.db].(log := log)];
      var found := RetrieveAllFileNames(log);
      var files := i.files + found;
      assert files == i.files + [Config] + Chain(log, LastArchived(log));
      hbClients := hbClients[sock := i.(status := Sending, files := files[1..])];
      r := Cont(Some(files[0]));
    }

    method ProcessNextFile(sock: Sock) returns (r: Response)
      requires sock in hbClients && served == At(sock)
      modifies this
      ensures (View(), r) == Serve(old(View()), sock, NextFile)
      ensures served == Pointed(View(), sock)
    {
      var i := hbClients[sock];
      if i.status != Sending {
        ProcessErrorHbp(sock);
        return Err;
      }
      if |i.files| > 0 {
        hbClients := hbClients[sock := i.(files := i.files[1..])];
        r := Cont(Some(i.files[0]));
      } else {
        hbClients := hbClients[sock := i.(status := Ending)];
        r := Cont(None);
      }
    }

    method ProcessEndRequest(sock: Sock) returns (r: Response)
      requires sock in hbClients && served == At(sock)
      modifies this
      ensures (View(), r) == Serve(old(View()), sock, End)
      ensures served == Pointed(View(), sock)
    {
      var i := hbClients[sock];
      if i.status != Ending || i.db !in sms {
        ProcessErrorHbp(sock);
        return Err;
      }
      sms := sms[i.db := EndSm(sms[i.db])];
      Erase(sock);
      r := Ended;
    }

    method Dispatch(sock: Sock, req: Request) returns (r: Response)
      requires sock in hbClients && served == At(sock)
      modifies this
      ensures (View(), r) == Serve(old(View()), sock, req) && served == Pointed(View(), sock)
    {
      match req
      case Start(checkp, incr, db) => r := ProcessStartRequest(sock, checkp, incr, db);
      case Archive => r := ProcessLogArchRequest(sock);
      case NextFile => r := ProcessNextFile(sock);
      case End => r := ProcessEndRequest(sock);
    }

    /** A message on a connection; None if it could not be received or reports an error of
        the client. Then the pointers are still those of the connection served before, and
        without a live one the outcome is undefined. */
    method ProcessMessage(sock: Sock, msg: Option<Request>) returns (defined: bool, r: Response)
      requires sock in hbClients
      modifies this
      ensures msg.Some? ==> defined && (View(), r) == Serve(old(View()), sock, msg.value) && served == Pointed(View(), sock)
      ensures msg.None? ==> (defined <==> Lost(old(View()), old(served), sock).Some?)
      ensures msg.None? && defined ==>
        && Some(View()) == Lost(old(View()), old(served), sock)
        && served == (if old(served) == At(sock) then Gone else old(served))
    {
      defined, r := true, Err;
      match msg
      case None =>
        defined := served.At? && served.sock in hbClients;
        if defined {
          ProcessErrorHbp(sock);
        }
      case Some(req) =>
        served := At(sock);
        r := Dispatch(sock, req);
    }
  }
}
