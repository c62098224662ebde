/**
 What a caller is told, and what it can read: the code of every call says what the server
 did, and the reads after a call give the item the server produced for it.
 */
module SessionReports {
  import opened Sequences
  import opened Sp
  import opened Session
  import opened SessionAgreement
  import opened SessionRuns

  // What a call reports

  /** The call gets as far as the server. */
  predicate Reaches(w: World, call: Call) {
    w.conn.ok && Cleans(w.conn, call) && !Fails(w)
  }

  /** What the caller of a call that reaches the server is to be told, by what the server
      decides there. */
  function Report(s: Server, call: Call, o: Oracle): Code
    requires !call.Read?
  {
    match call
    case Begin => if !s.inner && o.granted then BeginSucceeded else BeginRefused
    case Commit => if s.inner && o.granted then CommitSucceeded else CommitRefused
    case Rollback => if s.inner && o.granted then RollbackSucceeded else RollbackRefused
    case Execute =>
      if !s.inner || o.work.Fail? then Error
      else if o.work.Update? then UpdateDone
      else if o.work.parts == [] && o.work.ending.Abort? then QueryRefused
      else QueryDone
    case Next =>
      if s.inner && !s.running then Blocked
      else if !s.inner || !o.work.Answer? || (o.work.parts == [] && o.work.ending.Abort?) then NextRefused
      else if o.work.parts == [] && o.work.ending.Last? then AtEnd
      else NextDone
  }

  /** What the caller of any call but a read is to be told. */
  function Told(w: World, call: Call, o: Oracle): Code
    requires !call.Read?
  {
    if Reaches(w, call) then Report(w.server, call, o)
    else if !w.conn.ok || Cleans(w.conn, call) then Error
    else if !w.conn.inQuery then NoItem
    else if w.conn.resultEnd then AtEnd
    else NextDone
  }

  lemma FirstOfItem(w: World, parts: seq<Data>, e: Ending)
    requires w.channel == Item(parts, e)
    ensures ItemReply(w).1 == if parts == [] && e.Abort? then QueryRefused else QueryDone
    ensures ItemReply(w).1 == QueryDone ==> (ItemReply(w).0.conn.resultEnd <==> parts == [] && e.Last?)
  {
    ItemRest(parts, e);
  }

  lemma ExecuteReport(w: World, o: Oracle)
    requires Idle(w)
    ensures Exchange(w, Execute, o).1 == Report(w.server, Execute, o)
  {
    if w.server.inner && o.work.Answer? {
      var u := Send(w, ExecuteQuery, o);
      var item := Item(o.work.parts, o.work.ending);
      assert u.channel[1..] == item;
      FirstOfItem(u.(channel := item), o.work.parts, o.work.ending);
    }
  }

  lemma NextReport(w: World, o: Oracle)
    requires Idle(w) && w.conn.inQuery
    ensures Exchange(w, Next, o).1 == Report(w.server, Next, o)
  {
    var u := Send(w, GetNextItem, o);
    if w.server.inner && w.server.running && o.work.Answer? {
      assert u.channel == Item(o.work.parts, o.work.ending);
      FirstOfItem(u, o.work.parts, o.work.ending);
    }
  }

  lemma StatusReport(w: World, call: Call, o: Oracle)
    requires Idle(w) && (call.Begin? || call.Commit? || call.Rollback?)
    ensures Exchange(w, call, o).1 == Report(w.server, call, o)
  {
  }

  lemma ExchangeReport(w: World, call: Call, o: Oracle)
    requires Idle(w) && !call.Read? && (call.Next? ==> w.conn.inQuery)
    ensures Exchange(w, call, o).1 == Report(w.server, call, o)
  {
    if call.Execute? {
      ExecuteReport(w, o);
    } else if call.Next? {
      NextReport(w, o);
    } else {
      StatusReport(w, call, o);
    }
  }

  /** A call that reaches the server is the exchange in a cleared world. */
  lemma ReachedExchange(w: World, call: Call, o: Oracle) returns (u: World)
    requires Agree(w) && Reaches(w, call) && !call.Read?
    ensures Idle(u) && u.server == w.server && u.channel == []
    ensures u.conn.inQuery == w.conn.inQuery && u.conn.firstNext == w.conn.firstNext
    ensures Perform(w, call, o) == Exchange(u, call, o)
  {
    CleanAgree(w);
    var (c, ch, cleaned) := Clean(w.conn, w.channel);
    u := w.(conn := c, channel := ch);
  }

  /** Every call tells its caller what the server did. */
  lemma CodeIsTold(w: World, call: Call, o: Oracle)
    requires Agree(w) && !call.Read?
    ensures Perform(w, call, o).1 == Told(w, call, o)
  {
    if Reaches(w, call) {
      var u := ReachedExchange(w, call, o);
      ExchangeReport(u, call, o);
    } else if w.conn.ok && Cleans(w.conn, call) {
      CleanAgree(w);
    }
  }

  // What a call does to the transaction

  /** A request that ends the transaction it meets on the server. */
  predicate Closes(s: Server, call: Call, o: Oracle) {
    s.inner &&
    match call
    case Commit => true
    case Rollback => true
    case Execute => o.work.Fail? || (o.work.Answer? && o.work.ending.Abort?)
    case Next => s.running && (!o.work.Answer? || o.work.ending.Abort?)
    case _ => false
  }

  lemma ExchangeTransaction(w: World, call: Call, o: Oracle)
    requires Idle(w) && !call.Read? && (call.Next? ==> w.conn.inQuery)
    ensures var v := Exchange(w, call, o).0;
      && (!w.server.inner && v.server.inner <==> Report(w.server, call, o) == BeginSucceeded)
      && (w.server.inner && !v.server.inner <==> Closes(w.server, call, o))
  {
  }

  /** A begin succeeds exactly if the server goes from outside to inside a transaction in
      this call; a transaction ends exactly by a commit, a rollback, or a statement that
      fails; a rollback is reported exactly if it was granted inside one. */
  lemma CallTransaction(w: World, call: Call, o: Oracle)
    requires Agree(w) && Proper(w, call)
    ensures var (v, code) := Perform(w, call, o);
      && (code == BeginSucceeded <==> !w.server.inner && v.server.inner)
      && (w.server.inner && !v.server.inner <==> Reaches(w, call) && Closes(w.server, call, o))
      && (code == RollbackSucceeded <==> call.Rollback? && w.server.inner && !v.server.inner && o.granted)
      && (code == CommitSucceeded <==> v.server.commits == w.server.commits + 1)
  {
    CallAgree(w, call, o);
    if call.Read? {
      if w.conn.ok { ReadAgree(w, call.n); ReadCode(w, call.n); }
    } else {
      CodeIsTold(w, call, o);
      if Reaches(w, call) {
        var u := ReachedExchange(w, call, o);
        ExchangeTransaction(u, call, o);
      } else if w.conn.ok && Cleans(w.conn, call) {
        CleanAgree(w);
      }
    }
  }

  /** The statement has more items to give after the request. */
  predicate Goes(s: Server, call: Call, o: Oracle) {
    s.inner &&
    match call
    case Execute => o.work.Answer? && o.work.ending.More?
    case Next => s.running && o.work.Answer? && o.work.ending.More?
    case Begin => s.running
    case _ => false
  }

  /** A statement goes on on the server exactly as long as its items do: any other statement,
      and the end of the transaction, closes it. */
  lemma CallStatement(w: World, call: Call, o: Oracle)
    requires Agree(w) && Proper(w, call)
    ensures Perform(w, call, o).0.server.running <==>
      if Reaches(w, call) && !call.Read? then Goes(w.server, call, o) else w.server.running
  {
    if call.Read? {
      if w.conn.ok { ReadAgree(w, call.n); }
    } else if Reaches(w, call) {
      var u := ReachedExchange(w, call, o);
      ExchangeStatement(u, call, o);
    } else if w.conn.ok && Cleans(w.conn, call) {
      CleanAgree(w);
    }
  }

  lemma ExchangeStatement(w: World, call: Call, o: Oracle)
    requires Idle(w) && !call.Read? && (call.Next? ==> w.conn.inQuery)
    ensures Exchange(w, call, o).0.server.running <==> Goes(w.server, call, o)
  {
  }

  /** Whatever the server may send, a call reports success exactly on the message that says
      so, and gives the connection up exactly on one that has no place there. */
  lemma ReplyTold(c: Conn, m: Reply)
    requires c.ok
    ensures BeginTaken(c, m).1 == (if m.BeginOk? then BeginSucceeded else BeginRefused)
    ensures CommitTaken(c, m).1 == (if m.CommitOk? then CommitSucceeded else CommitRefused)
    ensures RollbackTaken(c, m).1 == (if m.RollbackOk? then RollbackSucceeded else RollbackRefused)
    ensures StatementTaken(c, m).1 ==
      (if m.UpdateSucceeded? then UpdateDone else if m.UpdateFailed? then UpdateRefused
       else if m.QueryFailed? then QueryRefused else Error)
    ensures StatementTaken(c, m).0.active <==> c.active && m.UpdateSucceeded?
    ensures BeginTaken(c, m).0.ok <==> m.BeginOk? || m.BeginFailed? || m.ErrorResponse?
    ensures CommitTaken(c, m).0.ok <==> m.CommitOk? || m.CommitFailed? || m.ErrorResponse?
    ensures RollbackTaken(c, m).0.ok <==> m.RollbackOk? || m.RollbackFailed? || m.ErrorResponse?
    ensures StatementTaken(c, m).0.ok <==> m.UpdateSucceeded? || m.UpdateFailed? || m.QueryFailed? || m.ErrorResponse?
    ensures ItemTaken(c, m).1 == QueryDone <==> m.ItemStart? || m.ItemPart? || m.ItemEnd? || m.ResultEnd?
    ensures ItemTaken(c, m).0.ok <==> m.ItemStart? || m.ItemPart? || m.ItemEnd? || m.ResultEnd? || m.ErrorResponse?
    ensures m.ItemStart? || m.ItemPart? ==> ItemTaken(c, m).0.local == m.data && ItemTaken(c, m).0.keeps
  {
  }

  /** The same for a read that has to receive. */
  lemma FetchTold(c: Conn, m: Reply, rest: seq<Reply>, n: nat, got: seq<Byte>)
    requires c.ok && c.keeps && n > 0
    ensures var (d, ch, code) := Fetch(c, [m] + rest, n, got);
      && (!m.ItemPart? ==> code == (if m.ItemEnd? || m.ResultEnd? then Got(got) else Error) && ch == rest)
      && (!m.ItemPart? ==> !d.keeps && (d.ok <==> m.ItemEnd? || m.ResultEnd? || m.ErrorResponse?))
      && (!m.ItemPart? && !m.ItemEnd? ==> d.resultEnd)
  {
    assert ([m] + rest)[1..] == rest;
  }

  /** After a commit, a rollback or a begin that succeeded, or an update, there is nothing to
      read and no next item. */
  lemma NothingToRead(w: World, call: Call, o: Oracle, next: Oracle, n: int)
    requires Agree(w) && Reaches(w, call) && !call.Read?
    requires call.Commit? || Perform(w, call, o).1 in {RollbackSucceeded, BeginSucceeded, UpdateDone}
    ensures var v := Perform(w, call, o).0;
      && Perform(v, Next, next) == (v, NoItem) && Perform(v, Read(n), next) == (v, Got([]))
  {
    var u := ReachedExchange(w, call, o);
    ExchangeReport(u, call, o);
    OutOfQuery(u, call, o);
  }

  lemma OutOfQuery(u: World, call: Call, o: Oracle)
    requires Idle(u) && !call.Read? && (call.Next? ==> u.conn.inQuery)
    requires call.Commit? || Report(u.server, call, o) in {RollbackSucceeded, BeginSucceeded, UpdateDone}
    ensures var c := Exchange(u, call, o).0.conn; c.ok && !c.inQuery
  {
  }

  /** A read returns bytes or an error. */
  lemma ReadCode(w: World, n: int)
    requires Agree(w) && w.conn.ok && (n < 0 ==> !w.conn.keeps)
    ensures GetData(w, n).1.Got? || GetData(w, n).1 == Error
  {
    if 0 <= n <= |Unread(w)| {
      ReadWithin(w, n);
    } else if n > |Unread(w)| {
      ReadPast(w, n);
    }
  }

  // What there is to read after a call

  /** The call makes the server produce an item. */
  predicate Produces(w: World, call: Call, o: Oracle) {
    && Reaches(w, call) && w.server.inner && o.work.Answer?
    && (call.Execute? || (call.Next? && w.server.running))
  }

  lemma TakenFails(w: World, parts: seq<Data>, e: Ending)
    requires w.conn.ok && w.channel == Item(parts, e)
    ensures Fails(ItemReply(w).0) <==> parts != [] && e.Abort?
  {
    ItemRest(parts, e);
  }

  /** The first item after a statement, taken in. */
  lemma ExecuteTaken(u: World, o: Oracle) returns (x: World)
    requires Idle(u) && u.server.inner && o.work.Answer?
    ensures x.conn == u.conn && x.server == AfterItem(u.server, o.work.ending) && x.channel == Item(o.work.parts, o.work.ending)
    ensures Exchange(u, Execute, o).0 == ItemReply(x).0.(conn := ItemReply(x).0.conn.(firstNext := true))
  {
    var s := Send(u, ExecuteQuery, o);
    x := s.(channel := s.channel[1..]);
    assert x.channel == Item(o.work.parts, o.work.ending);
    ItemRest(o.work.parts, o.work.ending);
  }

  lemma ExecuteDelivers(u: World, o: Oracle)
    requires Idle(u) && u.server.inner && o.work.Answer?
    ensures var v := Exchange(u, Execute, o).0;
      Unread(v) == Joined(o.work.parts) && (Fails(v) <==> o.work.parts != [] && o.work.ending.Abort?)
  {
    var x := ExecuteTaken(u, o);
    ItemArrives(x, o.work.parts, o.work.ending);
    TakenFails(x, o.work.parts, o.work.ending);
  }

  lemma NextDelivers(u: World, o: Oracle)
    requires Idle(u) && u.conn.inQuery && u.server.inner && u.server.running && o.work.Answer?
    ensures var v := Exchange(u, Next, o).0;
      Unread(v) == Joined(o.work.parts) && (Fails(v) <==> o.work.parts != [] && o.work.ending.Abort?)
  {
    var x := Send(u, GetNextItem, o);
    assert x.channel == Item(o.work.parts, o.work.ending);
    ItemArrives(x, o.work.parts, o.work.ending);
    TakenFails(x, o.work.parts, o.work.ending);
  }

  /** What the client can read after it is the item produced, all of it, and it breaks off in
      an error exactly if producing it did. */
  lemma ItemDelivered(w: World, call: Call, o: Oracle)
    requires Agree(w) && Produces(w, call, o)
    ensures var v := Perform(w, call, o).0;
      && Agree(v) && v.conn.ok && Unread(v) == Joined(o.work.parts)
      && (Fails(v) <==> o.work.parts != [] && o.work.ending.Abort?)
  {
    var u := ReachedExchange(w, call, o);
    if call.Execute? {
      ExecuteAgree(u, o);
      ExecuteDelivers(u, o);
    } else {
      NextAgree(u, o);
      NextDelivers(u, o);
    }
  }

  /** The data the calls of a run have handed over. */
  function Handed(codes: seq<Code>): seq<seq<Byte>> {
    if codes == [] then [] else [if codes[0].Got? then codes[0].bytes else []] + Handed(codes[1..])
  }

  /** No call of the run turns to the server: reads, and next calls answered locally. */
  ghost predicate Stays(w: World, steps: seq<Step>)
    decreases |steps|
  {
    steps != [] ==>
      && !Cleans(w.conn, steps[0].call)
      && Stays(Perform(w, steps[0].call, steps[0].oracle).0, steps[1..])
  }

  lemma LocalRead(w: World, n: int)
    requires Agree(w) && w.conn.ok && (n < 0 ==> !w.conn.keeps) && GetData(w, n).1 != Error
    ensures var (v, code) := GetData(w, n);
      && Agree(v) && v.conn.ok && code.Got? && code.bytes + Unread(v) == Unread(w)
      && (|code.bytes| < n ==> Unread(v) == [])
  {
    if 0 <= n <= |Unread(w)| {
      ReadWithin(w, n);
      assert Unread(w)[..n] + Unread(w)[n..] == Unread(w);
    } else if n > |Unread(w)| {
      ReadPast(w, n);
    }
  }

  lemma LocalStep(w: World, call: Call, o: Oracle)
    requires Agree(w) && w.conn.ok && Proper(w, call) && !Cleans(w.conn, call) && Perform(w, call, o).1 != Error
    ensures var (v, code) := Perform(w, call, o);
      && Agree(v) && v.conn.ok && (if code.Got? then code.bytes else []) + Unread(v) == Unread(w)
      && (CameShort(call, code) ==> Unread(v) == [])
  {
    if call.Read? {
      LocalRead(w, call.n);
    }
  }

  lemma Regroup(d: seq<Byte>, ds: seq<seq<Byte>>, rest: seq<Byte>)
    ensures Joined([d] + ds) + rest == d + (Joined(ds) + rest)
  {
    JoinedFirst(d, ds);
  }

  lemma {:induction false} LocalRun(w: World, steps: seq<Step>, codes: seq<Code>, v: World)
    requires Agree(w) && w.conn.ok && Run(w, steps, codes, v) && Stays(w, steps) && Error !in codes
    ensures Joined(Handed(codes)) + Unread(v) == Unread(w)
    ensures steps != [] && |codes| == |steps| && CameShort(steps[|steps| - 1].call, codes[|steps| - 1]) ==> Unread(v) == []
    decreases |steps|
  {
    if steps != [] {
      var (u, code) := Perform(w, steps[0].call, steps[0].oracle);
      assert codes[0] in codes;
      LocalStep(w, steps[0].call, steps[0].oracle);
      LocalRun(u, steps[1..], codes[1..], v);
      var piece := if code.Got? then code.bytes else [];
      Regroup(piece, Handed(codes[1..]), Unread(v));
    }
  }

  /** In every run, after a call that made the server produce an item, and until the next
      call that turns to the server: what the reads have handed over is a prefix of that
      item, the rest of it is still to be read, and once a read has come short it was all. */
  lemma RunDelivers(commits: nat, before: seq<Step>, codes0: seq<Code>, w: World, step: Step,
                    after: seq<Step>, codes: seq<Code>, v: World)
    requires Run(Opened(commits), before, codes0, w) && Produces(w, step.call, step.oracle)
    requires var u := Perform(w, step.call, step.oracle).0; Run(u, after, codes, v) && Stays(u, after)
    requires Error !in codes
    ensures Joined(Handed(codes)) + Unread(v) == Joined(step.oracle.work.parts)
    ensures after != [] && |codes| == |after| && CameShort(after[|after| - 1].call, codes[|after| - 1]) ==>
      Joined(Handed(codes)) == Joined(step.oracle.work.parts)
  {
    RunAgree(Opened(commits), before, codes0, w);
    ItemDelivered(w, step.call, step.oracle);
    LocalRun(Perform(w, step.call, step.oracle).0, after, codes, v);
  }

  // Runs

  /** A run falls into two at every call. */
  lemma {:induction false} RunSplit(w: World, steps: seq<Step>, codes: seq<Code>, v: World, n: nat) returns (u: World)
    requires Run(w, steps, codes, v) && n <= |steps|
    ensures |codes| == |steps| && Run(w, steps[..n], codes[..n], u) && Run(u, steps[n..], codes[n..], v)
    decreases |steps|
  {
    if steps == [] {
      u := w;
    } else {
      var next := Perform(w, steps[0].call, steps[0].oracle).0;
      if n == 0 {
        var _ := RunSplit(next, steps[1..], codes[1..], v, 0);
        u := w;
        assert steps[0..] == steps && codes[0..] == codes;
      } else {
        u := RunSplit(next, steps[1..], codes[1..], v, n - 1);
        assert steps[..n][1..] == steps[1..][..n - 1] && codes[..n][1..] == codes[1..][..n - 1];
        assert steps[1..][n - 1..] == steps[n..] && codes[1..][n - 1..] == codes[n..];
      }
    }
  }

  /** In every run the code of every call says what the server did in it. */
  lemma RunReports(commits: nat, steps: seq<Step>, codes: seq<Code>, v: World, n: nat) returns (w: World, u: World)
    requires Run(Opened(commits), steps, codes, v) && n < |steps|
    ensures |codes| == |steps| && Run(Opened(commits), steps[..n], codes[..n], w) && Agree(w)
    ensures Perform(w, steps[n].call, steps[n].oracle) == (u, codes[n]) && Run(u, steps[n + 1..], codes[n + 1..], v)
    ensures !steps[n].call.Read? ==> codes[n] == Told(w, steps[n].call, steps[n].oracle)
    ensures codes[n] == BeginSucceeded <==> !w.server.inner && u.server.inner
    ensures codes[n] == RollbackSucceeded <==>
      steps[n].call.Rollback? && w.server.inner && !u.server.inner && steps[n].oracle.granted
    ensures w.server.inner && !u.server.inner <==> Reaches(w, steps[n].call) && Closes(w.server, steps[n].call, steps[n].oracle)
  {
    w := RunSplit(Opened(commits), steps, codes, v, n);
    RunAgree(Opened(commits), steps[..n], codes[..n], w);
    var step := steps[n];
    assert steps[n..][0] == step && codes[n..][0] == codes[n];
    assert steps[n..][1..] == steps[n + 1..] && codes[n..][1..] == codes[n + 1..];
    u := Perform(w, step.call, step.oracle).0;
    CallTransaction(w, step.call, step.oracle);
    if !step.call.Read? {
      CodeIsTold(w, step.call, step.oracle);
    }
  }

  // The end of a result

  /** A result known to be over is over on the server. */
  predicate Tight(w: World) {
    w.conn.ok && w.conn.inQuery && w.conn.resultEnd ==> !w.server.running
  }

  /** Invalid arguments to getData make the client take a result for finished that is not,
      exactly if the statement is still running. */
  lemma InvalidReadEnds(w: World, n: int)
    requires Agree(w) && Tight(w) && w.conn.ok && n < 0 && !w.conn.keeps
    ensures Tight(GetData(w, n).0) <==> !(w.conn.inQuery && !w.conn.resultEnd && w.server.running)
  {
  }

  lemma CleanTight(w: World)
    requires Agree(w) && w.conn.ok && Tight(w)
    ensures var (c, ch, cleaned) := Clean(w.conn, w.channel); Tight(w.(conn := c, channel := ch))
  {
    if w.conn.keeps {
      SkipRest(w.channel);
    }
  }

  lemma ReadTight(w: World, n: nat)
    requires Agree(w) && w.conn.ok && Tight(w)
    ensures Tight(GetData(w, n).0)
  {
    var c := w.conn;
    if c.keeps && n > |c.local| {
      if n <= |Unread(w)| {
        FetchWithin(c.(local := []), w.channel, n - |c.local|, [] + c.local);
      } else {
        FetchPast(c.(local := []), w.channel, n - |c.local|, [] + c.local);
      }
    }
  }

  lemma ItemTight(w: World, parts: seq<Data>, e: Ending)
    requires w.channel == Item(parts, e) && Fits(w.server, Terminator(e)) && (w.server.running ==> w.server.inner)
    ensures Tight(ItemReply(w).0)
  {
    ItemRest(parts, e);
  }

  lemma ExchangeTight(w: World, call: Call, o: Oracle)
    requires Idle(w) && Tight(w) && !call.Read? && (call.Next? ==> w.conn.inQuery)
    ensures Tight(Exchange(w, call, o).0)
  {
    if w.server.inner && o.work.Answer? {
      if call.Execute? {
        var s := Send(w, ExecuteQuery, o);
        assert s.channel[1..] == Item(o.work.parts, o.work.ending);
        ItemTight(s.(channel := s.channel[1..]), o.work.parts, o.work.ending);
      } else if call.Next? && w.server.running {
        var s := Send(w, GetNextItem, o);
        assert s.channel == Item(o.work.parts, o.work.ending);
        ItemTight(s, o.work.parts, o.work.ending);
      }
    }
  }

  lemma CallTight(w: World, call: Call, o: Oracle)
    requires Agree(w) && Tight(w) && (call.Read? ==> call.n >= 0)
    ensures Tight(Perform(w, call, o).0)
  {
    if w.conn.ok && call.Read? {
      ReadTight(w, call.n);
    } else if w.conn.ok && Cleans(w.conn, call) {
      CleanAgree(w);
      CleanTight(w);
      var (c, ch, cleaned) := Clean(w.conn, w.channel);
      if cleaned == Clear {
        ExchangeTight(w.(conn := c, channel := ch), call, o);
      }
    }
  }

  predicate ValidReads(steps: seq<Step>) {
    forall i :: 0 <= i < |steps| && steps[i].call.Read? ==> steps[i].call.n >= 0
  }

  lemma {:induction false} RunTight(w: World, steps: seq<Step>, codes: seq<Code>, v: World)
    requires Agree(w) && Tight(w) && Run(w, steps, codes, v) && ValidReads(steps)
    ensures Tight(v)
    decreases |steps|
  {
    if steps != [] {
      var u := Perform(w, steps[0].call, steps[0].oracle).0;
      CallAgree(w, steps[0].call, steps[0].oracle);
      CallTight(w, steps[0].call, steps[0].oracle);
      RunTight(u, steps[1..], codes[1..], v);
    }
  }

  /** In every run without invalid reads, a next that reports the end of the result does so
      only when the statement has no more items on the server. */
  lemma EndIsEnd(commits: nat, steps: seq<Step>, codes: seq<Code>, v: World, o: Oracle)
    requires Run(Opened(commits), steps, codes, v) && ValidReads(steps) && Perform(v, Next, o).1 == AtEnd
    ensures !Perform(v, Next, o).0.server.running
  {
    RunAgree(Opened(commits), steps, codes, v);
    RunTight(Opened(commits), steps, codes, v);
    CodeIsTold(v, Next, o);
    CallTight(v, Next, o);
    if Reaches(v, Next) {
      var u := ReachedExchange(v, Next, o);
    }
  }
}
