/**
 Whole runs of a session: agreement at every call boundary, acknowledged commits,
 the calls that hang or lose the connection, and complete delivery of items.
 */
module SessionRuns {
  import opened Sequences
  import opened Sp
  import opened Session
  import opened SessionAgreement

  /** The one use the driver does not survive: invalid arguments to getData while the
      item is still arriving. */
  predicate Proper(w: World, call: Call) {
    call.Read? && call.n < 0 && w.conn.ok ==> !w.conn.keeps
  }

  /** A next that discards an item which is also the last of the result. */
  predicate Hangs(w: World, call: Call) {
    && w.conn.ok && w.conn.keeps && w.channel != [] && LastOf(w.channel).ResultEnd?
    && call.Next? && Cleans(w.conn, call)
  }

  lemma ExchangeAgree(w: World, call: Call, o: Oracle)
    requires Idle(w) && !call.Read? && (call.Next? ==> w.conn.inQuery)
    ensures var (v, code) := Exchange(w, call, o);
      && (code == Blocked <==> call.Next? && w.server.inner && !w.server.running)
      && (code != Blocked ==> Agree(v) && v.conn.ok)
      && v.server.commits == w.server.commits + (if code == CommitSucceeded then 1 else 0)
  {
    match call
    case Begin => BeginAgree(w, o);
    case Commit => CommitAgree(w, o);
    case Rollback => RollbackAgree(w, o);
    case Execute => ExecuteAgree(w, o);
    case Next => NextAgree(w, o);
  }

  /** After clearing, the statement is over on the server only if its result was. */
  lemma CleanedServer(w: World)
    requires Agree(w) && w.conn.ok && w.conn.inQuery && !w.conn.resultEnd
    ensures var (c, ch, cleaned) := Clean(w.conn, w.channel);
      cleaned == Clear && w.server.inner && !w.server.running <==> w.conn.keeps && LastOf(w.channel).ResultEnd?
  {
    CleanAgree(w);
  }

  /** One call: agreement is kept, commits are acknowledged exactly when they happened,
      and only the hanging next does not return. */
  lemma CallAgree(w: World, call: Call, o: Oracle)
    requires Agree(w) && Proper(w, call)
    ensures var (v, code) := Perform(w, call, o);
      && (code == Blocked <==> Hangs(w, call))
      && (code != Blocked ==> Agree(v))
      && v.server.commits == w.server.commits + (if code == CommitSucceeded then 1 else 0)
  {
    if w.conn.ok && call.Read? {
      ReadAgree(w, call.n);
    } else if w.conn.ok && (call.Next? ==> Cleans(w.conn, call)) {
      CleanAgree(w);
      var (c, ch, cleaned) := Clean(w.conn, w.channel);
      if cleaned == Clear {
        ExchangeAgree(w.(conn := c, channel := ch), call, o);
      }
      if call.Next? {
        CleanedServer(w);
      }
    }
  }

  lemma ReadAgree(w: World, n: int)
    requires Agree(w) && w.conn.ok && (n < 0 ==> !w.conn.keeps)
    ensures var (v, code) := GetData(w, n);
      Agree(v) && v.server == w.server && code != Blocked && code != CommitSucceeded
  {
    if 0 <= n <= |Unread(w)| {
      ReadWithin(w, n);
    } else if n > |Unread(w)| {
      ReadPast(w, n);
    }
  }

  /** Invalid arguments to getData are an error exactly inside a result, and break the
      agreement exactly while an item is arriving. */
  lemma InvalidRead(w: World, n: int)
    requires Agree(w) && w.conn.ok && n < 0
    ensures Agree(GetData(w, n).0) <==> !w.conn.keeps
    ensures GetData(w, n).1 == if w.conn.inQuery && !w.conn.resultEnd then Error else Got([])
  {
  }

  /** The connection is given up exactly by a call that has to discard an item the server
      broke off with an error; no reply is ever unexpected. */
  lemma ConnectionLost(w: World, call: Call, o: Oracle)
    requires Agree(w) && Proper(w, call) && w.conn.ok
    ensures !Perform(w, call, o).0.conn.ok <==> Cleans(w.conn, call) && Fails(w)
  {
    if call.Read? {
      if call.n >= 0 {
        if call.n <= |Unread(w)| { ReadWithin(w, call.n); } else { ReadPast(w, call.n); }
      }
    } else if call.Next? ==> Cleans(w.conn, call) {
      CleanAgree(w);
      var (c, ch, cleaned) := Clean(w.conn, w.channel);
      if cleaned == Clear {
        ExchangeOk(w.(conn := c, channel := ch), call, o);
      }
    }
  }

  lemma ExchangeOk(w: World, call: Call, o: Oracle)
    requires Idle(w) && !call.Read? && (call.Next? ==> w.conn.inQuery)
    ensures Exchange(w, call, o).0.conn.ok
  {
    ExchangeAgree(w, call, o);
    if call.Next? && w.server.inner && !w.server.running {
      assert Send(w, GetNextItem, o).channel == [];
    }
  }

  // Runs

  datatype Step = Step(call: Call, oracle: Oracle)

  /** A run of calls that all return, with the codes they return. */
  ghost predicate Run(w: World, steps: seq<Step>, codes: seq<Code>, v: World)
    decreases |steps|
  {
    if steps == [] then codes == [] && v == w
    else
      var (u, code) := Perform(w, steps[0].call, steps[0].oracle);
      && codes != [] && codes[0] == code && code != Blocked
      && Proper(w, steps[0].call) && Run(u, steps[1..], codes[1..], v)
  }

  function Acknowledged(codes: seq<Code>): nat {
    if codes == [] then 0 else Acknowledged(codes[1..]) + (if codes[0] == CommitSucceeded then 1 else 0)
  }

  lemma {:induction false} RunAgree(w: World, steps: seq<Step>, codes: seq<Code>, v: World)
    requires Agree(w) && Run(w, steps, codes, v)
    ensures Agree(v) && v.server.commits == w.server.commits + Acknowledged(codes)
    decreases |steps|
  {
    if steps != [] {
      CallAgree(w, steps[0].call, steps[0].oracle);
      RunAgree(Perform(w, steps[0].call, steps[0].oracle).0, steps[1..], codes[1..], v);
    }
  }

  /** In every run, between calls with nothing in flight, the client reports an active
      transaction exactly when the server is inside one, and every commit the server made
      has been reported to the client, and no other. */
  lemma StatusAgrees(commits: nat, steps: seq<Step>, codes: seq<Code>, v: World)
    requires Run(Opened(commits), steps, codes, v)
    ensures v.channel == [] ==> (v.conn.active <==> v.server.inner)
    ensures v.server.commits == commits + Acknowledged(codes)
  {
    RunAgree(Opened(commits), steps, codes, v);
  }

  /** The last call of a run. */
  lemma {:induction false} RunLast(w: World, steps: seq<Step>, codes: seq<Code>, v: World) returns (u: World)
    requires Run(w, steps, codes, v) && steps != []
    ensures |codes| == |steps|
    ensures Run(w, steps[..|steps| - 1], codes[..|steps| - 1], u) && Proper(u, steps[|steps| - 1].call)
    ensures Perform(u, steps[|steps| - 1].call, steps[|steps| - 1].oracle) == (v, codes[|steps| - 1])
    decreases |steps|
  {
    if |steps| == 1 {
      assert steps[1..] == [] && codes[1..] == [] && codes == [codes[0]];
      u := w;
    } else {
      var next := Perform(w, steps[0].call, steps[0].oracle).0;
      u := RunLast(next, steps[1..], codes[1..], v);
      var n := |steps| - 1;
      assert steps[1..][..n - 1] == steps[..n][1..] && codes[1..][..n - 1] == codes[..n][1..];
    }
  }

  /** A read that returned less than it asked for. */
  predicate CameShort(call: Call, code: Code) {
    call.Read? && code.Got? && |code.bytes| < call.n
  }

  lemma ShortReadClears(w: World, n: int, bytes: seq<Byte>)
    requires Agree(w) && w.conn.ok && GetData(w, n).1 == Got(bytes) && |bytes| < n
    ensures !GetData(w, n).0.conn.keeps
  {
    if n <= |Unread(w)| {
      ReadWithin(w, n);
    } else {
      ReadPast(w, n);
    }
  }

  lemma FirstNextSet(w: World, o: Oracle)
    requires Agree(w) && w.conn.ok && Perform(w, Execute, o).1 != Blocked
    ensures var c := Perform(w, Execute, o).0.conn; c.ok && c.keeps ==> c.firstNext
  {
    CleanAgree(w);
  }

  lemma SafeAfter(u: World, call: Call, o: Oracle, v: World, code: Code)
    requires Agree(u) && Perform(u, call, o) == (v, code) && code != Blocked
    requires call == Execute || CameShort(call, code)
    ensures !Hangs(v, Next)
  {
    if u.conn.ok {
      if call == Execute {
        FirstNextSet(u, o);
      } else {
        ShortReadClears(u, call.n, code.bytes);
      }
    }
  }

  /** The last call of the run was a statement, or a read that came short. */
  predicate Careful(steps: seq<Step>, codes: seq<Code>) {
    && |codes| == |steps| && steps != []
    && (steps[|steps| - 1].call == Execute || CameShort(steps[|steps| - 1].call, codes[|steps| - 1]))
  }

  /** What a caller can see to be safe: a client that calls next only right after a
      statement, or after a read that came short, never hangs. */
  lemma CarefulClientReturns(commits: nat, steps: seq<Step>, codes: seq<Code>, v: World, call: Call, o: Oracle)
    requires Run(Opened(commits), steps, codes, v) && Proper(v, call) && (call.Next? ==> Careful(steps, codes))
    ensures Perform(v, call, o).1 != Blocked
  {
    RunAgree(Opened(commits), steps, codes, v);
    CallAgree(v, call, o);
    if call.Next? {
      NotHanging(commits, steps, codes, v);
    }
  }

  lemma NotHanging(commits: nat, steps: seq<Step>, codes: seq<Code>, v: World)
    requires Run(Opened(commits), steps, codes, v) && Careful(steps, codes)
    ensures !Hangs(v, Next)
  {
    var u := RunLast(Opened(commits), steps, codes, v);
    var n := |steps| - 1;
    RunAgree(Opened(commits), steps[..n], codes[..n], u);
    CodesReturned(Opened(commits), steps, codes, v, n);
    SafeAfter(u, steps[n].call, steps[n].oracle, v, codes[n]);
  }

  lemma {:induction false} CodesReturned(w: World, steps: seq<Step>, codes: seq<Code>, v: World, n: nat)
    requires Run(w, steps, codes, v) && n < |codes|
    ensures codes[n] != Blocked
    decreases |steps|
  {
    if steps != [] && n > 0 {
      CodesReturned(Perform(w, steps[0].call, steps[0].oracle).0, steps[1..], codes[1..], v, n - 1);
    }
  }

  lemma RunStep(w: World, step: Step, u: World, code: Code, steps: seq<Step>, codes: seq<Code>, v: World)
    requires Perform(w, step.call, step.oracle) == (u, code) && code != Blocked && Proper(w, step.call)
    requires Run(u, steps, codes, v)
    ensures Run(w, [step] + steps, [code] + codes, v)
  {
    assert ([step] + steps)[1..] == steps && ([code] + codes)[1..] == codes;
  }

  /** A statement with one item, which ends its result. */
  const ONE_ITEM := Oracle(true, Answer([[65]], Last))
  const BEGUN := World(Conn(true, true, false, false, false, false, []), Server(true, false, 0), [])
  const FIRST := World(Conn(true, true, true, false, true, true, [65]), Server(true, false, 0), [ResultEnd])
  const SECOND := World(Conn(true, true, true, false, true, false, [65]), Server(true, false, 0), [ResultEnd])

  lemma OneItemBegun()
    ensures Perform(Opened(0), Begin, ONE_ITEM) == (BEGUN, BeginSucceeded)
  {
    assert Send(Opened(0), BeginTransaction, ONE_ITEM).channel == [BeginOk] && [BeginOk][1..] == [];
  }

  lemma OneItemExecuted()
    ensures Perform(BEGUN, Execute, ONE_ITEM) == (FIRST, QueryDone)
  {
    var item := Item([[65]], Last);
    assert item == [ItemPart([65]), ResultEnd];
    var u := Send(BEGUN, ExecuteQuery, ONE_ITEM);
    assert u.channel[1..] == item && item[1..] == [ResultEnd];
    assert ItemReply(u.(channel := item)) == (FIRST.(conn := FIRST.conn.(firstNext := false)), QueryDone);
    assert ExecuteReply(u) == (FIRST, QueryDone);
    assert Exchange(BEGUN, Execute, ONE_ITEM) == (FIRST, QueryDone);
  }

  /** The hang does happen: an only item skipped by two calls of next. */
  lemma HangReached()
    ensures Run(Opened(0), [Step(Begin, ONE_ITEM)] + ([Step(Execute, ONE_ITEM)] + ([Step(Next, ONE_ITEM)] + [])),
                [BeginSucceeded] + ([QueryDone] + ([NextDone] + [])), SECOND)
    ensures Perform(SECOND, Next, ONE_ITEM).1 == Blocked
  {
    var s1, s2, s3 := Step(Begin, ONE_ITEM), Step(Execute, ONE_ITEM), Step(Next, ONE_ITEM);
    OneItemBegun();
    OneItemExecuted();
    assert Perform(FIRST, Next, ONE_ITEM) == (SECOND, NextDone);
    RunStep(FIRST, s3, SECOND, NextDone, [], [], SECOND);
    RunStep(BEGUN, s2, FIRST, QueryDone, [s3] + [], [NextDone] + [], SECOND);
    RunStep(Opened(0), s1, BEGUN, BeginSucceeded, [s2] + ([s3] + []), [QueryDone] + ([NextDone] + []), SECOND);
    assert Agree(SECOND) && Hangs(SECOND, Next);
    CallAgree(SECOND, Next, ONE_ITEM);
  }

  // Delivery of items

  lemma {:induction false} ItemPayload(parts: seq<Data>, e: Ending)
    ensures Payload(Item(parts, e)) == Joined(parts)
  {
    if parts != [] {
      assert Item(parts, e)[1..] == Item(parts[1..], e);
      ItemPayload(parts[1..], e);
    }
  }

  /** An item the client has begun to receive is all there to be read. */
  lemma ItemArrives(w: World, parts: seq<Data>, e: Ending)
    requires w.conn.local == [] && w.channel == Item(parts, e)
    ensures Unread(ItemReply(w).0) == Joined(parts)
  {
    ItemPayload(parts, e);
    if parts != [] {
      assert Item(parts, e)[1..] == Item(parts[1..], e);
      ItemPayload(parts[1..], e);
    }
  }

  /** The data of a sequence of reads. */
  function Reads(w: World, sizes: seq<nat>): (World, seq<seq<Byte>>)
    decreases |sizes|
  {
    if sizes == [] then (w, [])
    else
      var (u, code) := GetData(w, sizes[0]);
      var (v, got) := Reads(u, sizes[1..]);
      (v, [if code.Got? then code.bytes else []] + got)
  }

  lemma ReadStep(w: World, n: nat)
    requires Agree(w) && w.conn.ok && !Fails(w)
    ensures var (u, code) := GetData(w, n);
      && Agree(u) && u.conn.ok && !Fails(u)
      && code.Got? && code.bytes + Unread(u) == Unread(w)
      && |code.bytes| == (if n <= |Unread(w)| then n else |Unread(w)|)
  {
    if n <= |Unread(w)| {
      ReadWithin(w, n);
    } else {
      ReadPast(w, n);
    }
  }

  /** Reads of any positive sizes give the item piece by piece, nothing lost and nothing
      twice; enough of them give all of it. */
  lemma {:induction false} ReadsDeliver(w: World, sizes: seq<nat>)
    requires Agree(w) && w.conn.ok && !Fails(w) && forall i :: 0 <= i < |sizes| ==> sizes[i] > 0
    ensures var (v, got) := Reads(w, sizes);
      && |got| == |sizes| && Joined(got) + Unread(v) == Unread(w)
      && (|sizes| > |Unread(w)| ==> Unread(v) == [])
    decreases |sizes|
  {
    if sizes != [] {
      ReadStep(w, sizes[0]);
      var (u, code) := GetData(w, sizes[0]);
      ReadsDeliver(u, sizes[1..]);
      var (v, got) := Reads(u, sizes[1..]);
      JoinedFirst(code.bytes, got);
      assert code.bytes + (Joined(got) + Unread(v)) == (code.bytes + Joined(got)) + Unread(v);
    }
  }

  /** A read shorter than asked, in particular an empty one, is the end of the item: the
      reads up to it have given the whole payload. */
  lemma {:induction false} ShortReadEnds(w: World, sizes: seq<nat>, i: nat)
    requires Agree(w) && w.conn.ok && !Fails(w) && i < |sizes| && forall k :: 0 <= k < |sizes| ==> sizes[k] > 0
    requires |Reads(w, sizes).1| == |sizes| && |Reads(w, sizes).1[i]| < sizes[i]
    ensures Joined(Reads(w, sizes).1[..i + 1]) == Unread(w)
    decreases i
  {
    ReadStep(w, sizes[0]);
    var (u, code) := GetData(w, sizes[0]);
    var got := Reads(u, sizes[1..]).1;
    if i == 0 {
      assert ([code.bytes] + got)[..1] == [code.bytes] + [];
      JoinedFirst(code.bytes, []);
    } else {
      ShortReadEnds(u, sizes[1..], i - 1);
      assert ([code.bytes] + got)[..i + 1] == [code.bytes] + got[..i];
      JoinedFirst(code.bytes, got[..i]);
    }
  }
}
