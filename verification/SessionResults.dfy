/**
 Whole results: a client that executes a statement and then calls next and reads each item
 until a read comes short gets every item the server produces, in order, none lost and
 none twice, and is told the end exactly when the result is over.
 */
module SessionResults {
  import opened Sequences
  import opened Sp
  import opened Session
  import opened SessionAgreement
  import opened SessionRuns
  import opened SessionReports

  /** The client is at an item that ends this way, on its data or past its end. */
  predicate AtItem(w: World, e: Ending) {
    var c := w.conn;
    && Agree(w) && c.ok && c.inQuery
    && if c.keeps then LastOf(w.channel) == Terminator(e)
       else e != Abort && (c.resultEnd <==> e == Last) && (e == More ==> w.server.inner)
  }

  /** The first message of an item, taken in. */
  lemma ItemBegun(w: World, parts: seq<Data>, e: Ending)
    requires w.channel == Item(parts, e) && ItemReply(w).1 == QueryDone && w.conn.ok && Fits(w.server, Terminator(e))
    requires Agree(ItemReply(w).0)
    ensures AtItem(ItemReply(w).0, e) && ItemReply(w).0.conn.firstNext == w.conn.firstNext
  {
    ItemRest(parts, e);
  }

  /** The client is at the first item after its statement, and at the item of every next. */
  lemma ExecutePositions(u: World, o: Oracle)
    requires Idle(u) && u.server.inner && o.work.Answer? && Exchange(u, Execute, o).1 == QueryDone
    ensures var v := Exchange(u, Execute, o).0; AtItem(v, o.work.ending) && v.conn.firstNext
  {
    ExecuteAgree(u, o);
    ExecuteReport(u, o);
    var x := ExecuteTaken(u, o);
    FirstOfItem(x, o.work.parts, o.work.ending);
    ItemBegun(x, o.work.parts, o.work.ending);
  }

  lemma NextPositions(u: World, o: Oracle)
    requires Idle(u) && u.conn.inQuery && u.server.inner && u.server.running && o.work.Answer?
    requires Exchange(u, Next, o).1 == NextDone
    ensures var v := Exchange(u, Next, o).0; AtItem(v, o.work.ending) && v.conn.firstNext == u.conn.firstNext
  {
    NextAgree(u, o);
    var x := Send(u, GetNextItem, o);
    assert x.channel == Item(o.work.parts, o.work.ending);
    ItemBegun(x, o.work.parts, o.work.ending);
  }

  lemma Positioned(w: World, call: Call, o: Oracle)
    requires Agree(w) && Produces(w, call, o) && Perform(w, call, o).1 == (if call.Execute? then QueryDone else NextDone)
    ensures AtItem(Perform(w, call, o).0, o.work.ending) && (Perform(w, call, o).0.conn.firstNext <==> call.Execute?)
  {
    var u := ReachedExchange(w, call, o);
    if call.Execute? {
      ExecutePositions(u, o);
    } else {
      NextPositions(u, o);
    }
  }

  /** Reading does not leave the item. */
  lemma ReadStays(w: World, e: Ending, n: nat)
    requires AtItem(w, e) && n > 0 && GetData(w, n).1.Got?
    ensures var v := GetData(w, n).0;
      AtItem(v, e) && v.server == w.server && v.conn.firstNext == w.conn.firstNext
  {
    var c := w.conn;
    if n <= |Unread(w)| {
      ReadWithin(w, n);
    } else {
      ReadPast(w, n);
    }
    if c.keeps && n > |c.local| {
      if n <= |Unread(w)| {
        FetchWithin(c.(local := []), w.channel, n - |c.local|, [] + c.local);
      } else {
        FetchPast(c.(local := []), w.channel, n - |c.local|, [] + c.local);
      }
    }
  }

  /** Reads until one comes short, none of them an error. */
  ghost predicate ReadThrough(w: World, gets: seq<Step>, codes: seq<Code>, v: World) {
    && gets != [] && |codes| == |gets| && Run(w, gets, codes, v) && Error !in codes
    && (forall i :: 0 <= i < |gets| ==> gets[i].call.Read? && gets[i].call.n > 0)
    && CameShort(gets[|gets| - 1].call, codes[|gets| - 1])
  }

  lemma {:induction false} ReadsStay(w: World, e: Ending, gets: seq<Step>, codes: seq<Code>, v: World)
    requires AtItem(w, e) && Run(w, gets, codes, v) && Error !in codes
    requires forall i :: 0 <= i < |gets| ==> gets[i].call.Read? && gets[i].call.n > 0
    ensures AtItem(v, e) && v.server == w.server && v.conn.firstNext == w.conn.firstNext && Stays(w, gets)
    decreases |gets|
  {
    if gets != [] {
      assert codes[0] in codes;
      ReadCode(w, gets[0].call.n);
      ReadStays(w, e, gets[0].call.n);
      ReadsStay(GetData(w, gets[0].call.n).0, e, gets[1..], codes[1..], v);
    }
  }

  /** Reading through an item gives all of it, and leaves the client past its end. */
  lemma {:induction false} ItemRead(w: World, e: Ending, gets: seq<Step>, codes: seq<Code>, v: World)
    requires AtItem(w, e) && ReadThrough(w, gets, codes, v)
    ensures Joined(Handed(codes)) == Unread(w) && AtItem(v, e) && !v.conn.keeps && v.conn.firstNext == w.conn.firstNext
  {
    ReadsStay(w, e, gets, codes, v);
    LocalRun(w, gets, codes, v);
    var n := |gets| - 1;
    var u := RunLast(w, gets, codes, v);
    assert forall i :: 0 <= i < n ==> codes[..n][i] == codes[i];
    ReadsStay(w, e, gets[..n], codes[..n], u);
    ShortReadClears(u, gets[n].call.n, codes[n].bytes);
  }

  // The loop of a client

  /** A next, what the executor does in it, and the reads that follow. */
  datatype Piece = Piece(oracle: Oracle, gets: seq<Step>, codes: seq<Code>)

  function After(w: World, steps: seq<Step>): World
    decreases |steps|
  {
    if steps == [] then w else After(Perform(w, steps[0].call, steps[0].oracle).0, steps[1..])
  }

  ghost predicate Fetched(w: World, pieces: seq<Piece>, v: World)
    decreases |pieces|
  {
    if pieces == [] then v == w
    else
      var (u, code) := Perform(w, Next, pieces[0].oracle);
      var x := After(u, pieces[0].gets);
      code == NextDone && ReadThrough(u, pieces[0].gets, pieces[0].codes, x) && Fetched(x, pieces[1..], v)
  }

  /** The item a piece has to give. */
  predicate Gives(p: Piece, o: Oracle) {
    o.work.Answer? && Joined(Handed(p.codes)) == Joined(o.work.parts)
  }

  function LastEnding(e: Ending, pieces: seq<Piece>): Ending {
    if pieces == [] || !pieces[|pieces| - 1].oracle.work.Answer? then e else pieces[|pieces| - 1].oracle.work.ending
  }

  /** Past the end of an item that has a successor, a successful next gets the successor. */
  lemma {:induction false} NextPiece(w: World, e: Ending, p: Piece)
    requires AtItem(w, e) && !w.conn.keeps && !w.conn.firstNext && Perform(w, Next, p.oracle).1 == NextDone
    requires var u := Perform(w, Next, p.oracle).0; ReadThrough(u, p.gets, p.codes, After(u, p.gets))
    ensures e == More && Gives(p, p.oracle)
    ensures var x := After(Perform(w, Next, p.oracle).0, p.gets);
      AtItem(x, p.oracle.work.ending) && !x.conn.keeps && !x.conn.firstNext
  {
    CodeIsTold(w, Next, p.oracle);
    ItemDelivered(w, Next, p.oracle);
    Positioned(w, Next, p.oracle);
    var u := Perform(w, Next, p.oracle).0;
    ItemRead(u, p.oracle.work.ending, p.gets, p.codes, After(u, p.gets));
  }

  lemma {:induction false} RestDelivered(w: World, e: Ending, pieces: seq<Piece>, v: World)
    requires AtItem(w, e) && !w.conn.keeps && !w.conn.firstNext && Fetched(w, pieces, v)
    ensures forall i :: 0 <= i < |pieces| ==> Gives(pieces[i], pieces[i].oracle)
    ensures AtItem(v, LastEnding(e, pieces)) && !v.conn.keeps && !v.conn.firstNext
    decreases |pieces|
  {
    if pieces != [] {
      NextPiece(w, e, pieces[0]);
      var x := After(Perform(w, Next, pieces[0].oracle).0, pieces[0].gets);
      RestDelivered(x, pieces[0].oracle.work.ending, pieces[1..], v);
      assert forall i :: 1 <= i < |pieces| ==> pieces[i] == pieces[1..][i - 1];
    }
  }

  /** The first next after the statement stays at the first item. */
  lemma {:induction false} FirstPiece(w: World, o: Oracle, p: Piece)
    requires Agree(w) && Produces(w, Execute, o) && Perform(w, Execute, o).1 == QueryDone
    requires var u := Perform(w, Execute, o).0;
      && Perform(u, Next, p.oracle).1 == NextDone
      && ReadThrough(Perform(u, Next, p.oracle).0, p.gets, p.codes, After(Perform(u, Next, p.oracle).0, p.gets))
    ensures Gives(p, o)
    ensures var x := After(Perform(Perform(w, Execute, o).0, Next, p.oracle).0, p.gets);
      AtItem(x, o.work.ending) && !x.conn.keeps && !x.conn.firstNext
  {
    ItemDelivered(w, Execute, o);
    Positioned(w, Execute, o);
    var u := Perform(w, Execute, o).0;
    var u1 := Perform(u, Next, p.oracle).0;
    assert u1 == u.(conn := u.conn.(firstNext := false));
    assert Unread(u1) == Unread(u);
    ItemRead(u1, o.work.ending, p.gets, p.codes, After(u1, p.gets));
  }

  /**
   The whole result, in every run: after a statement whose first item was produced, a loop of
   next calls, each followed by reads until one comes short, hands over the first item and
   then, one by one, the items the server produced, complete and in order. The next call
   after that reports the end if the last of them was the last, and otherwise turns to the
   server; it never hangs.
   */
  lemma {:induction false} ResultDelivered(commits: nat, before: seq<Step>, codes: seq<Code>, w: World, o: Oracle,
                                           pieces: seq<Piece>, v: World, next: Oracle)
    requires Run(Opened(commits), before, codes, w) && Produces(w, Execute, o) && Perform(w, Execute, o).1 == QueryDone
    requires pieces != [] && Fetched(Perform(w, Execute, o).0, pieces, v)
    ensures Gives(pieces[0], o)
    ensures forall i :: 1 <= i < |pieces| ==> Gives(pieces[i], pieces[i].oracle)
    ensures var e := LastEnding(o.work.ending, pieces[1..]);
      && e != Abort && Perform(v, Next, next).1 != Blocked
      && (e == Last ==> Perform(v, Next, next) == (v, AtEnd))
      && (e == More ==> Reaches(v, Next) && v.server.inner && v.server.running)
  {
    RunAgree(Opened(commits), before, codes, w);
    var u := Perform(w, Execute, o).0;
    FirstOf(u, pieces, v);
    FirstPiece(w, o, pieces[0]);
    RestDelivered(After(Perform(u, Next, pieces[0].oracle).0, pieces[0].gets), o.work.ending, pieces[1..], v);
    assert forall i :: 1 <= i < |pieces| ==> pieces[i] == pieces[1..][i - 1];
    PastItem(v, LastEnding(o.work.ending, pieces[1..]), next);
  }

  lemma {:induction false} FirstOf(u: World, pieces: seq<Piece>, v: World)
    requires pieces != [] && Fetched(u, pieces, v)
    ensures var (x, code) := Perform(u, Next, pieces[0].oracle);
      && code == NextDone && ReadThrough(x, pieces[0].gets, pieces[0].codes, After(x, pieces[0].gets))
      && Fetched(After(x, pieces[0].gets), pieces[1..], v)
  {
  }

  /** A next past the end of an item. */
  lemma PastItem(v: World, e: Ending, next: Oracle)
    requires AtItem(v, e) && !v.conn.keeps && !v.conn.firstNext
    ensures e != Abort && Perform(v, Next, next).1 != Blocked
    ensures e == Last ==> Perform(v, Next, next) == (v, AtEnd)
    ensures e == More ==> Reaches(v, Next) && v.server.inner && v.server.running
  {
    CodeIsTold(v, Next, next);
  }
}
