/**
 Client and server agree on the transaction status, in every run of calls; when a call
 hangs or breaks the connection; what getData delivers.
 */
module SessionAgreement {
  import opened Sp
  import opened Session

  // The channel between calls

  /** The rest of an item: parts and one terminator. */
  predicate Rest(ch: seq<Reply>) {
    ch != [] && Ends(ch[|ch| - 1]) && forall i :: 0 <= i < |ch| - 1 ==> ch[i].ItemPart?
  }

  function LastOf(ch: seq<Reply>): Reply
    requires ch != []
  {
    ch[|ch| - 1]
  }

  /** Client and server positions that fit when an item ends this way and the client has
      not read the end yet. */
  predicate Fits(s: Server, end: Reply) {
    match end
    case ItemEnd => s.inner && s.running
    case ResultEnd => s.inner && !s.running
    case _ => !s.inner
  }

  /** What holds between calls. */
  predicate Agree(w: World) {
    var c, s := w.conn, w.server;
    && (s.running ==> s.inner)
    && if !c.ok then !c.active && !s.inner && w.channel == []
       else if c.keeps then
         c.inQuery && !c.resultEnd && c.active && Rest(w.channel) && Fits(s, LastOf(w.channel))
       else
         && w.channel == [] && c.local == []
         && (c.active <==> s.inner)
         && (c.inQuery && !c.resultEnd && s.inner ==> s.running)
  }

  lemma {:induction false} SkipRest(ch: seq<Reply>)
    requires Rest(ch)
    ensures Skip(ch) == [LastOf(ch)]
  {
    if |ch| > 1 {
      assert LastOf(ch[1..]) == LastOf(ch);
      SkipRest(ch[1..]);
    }
  }

  /** Clearing the previous item leaves an agreeing world, unless the server has rolled
      back meanwhile: then the connection is given up. */
  lemma CleanAgree(w: World)
    requires Agree(w) && w.conn.ok
    ensures var (c, ch, cleaned) := Clean(w.conn, w.channel);
      && Agree(w.(conn := c, channel := ch)) && (cleaned == Clear ==> !c.keeps) && ch == []
      && (cleaned == Failed <==> w.conn.keeps && LastOf(w.channel).ErrorResponse?)
      && (cleaned == Failed <==> !c.ok)
      && cleaned != Stuck
      && (c.inQuery == w.conn.inQuery)
  {
    if w.conn.keeps {
      SkipRest(w.channel);
    }
  }

  predicate Idle(w: World) {
    Agree(w) && w.conn.ok && !w.conn.keeps
  }

  lemma BeginAgree(w: World, o: Oracle)
    requires Idle(w)
    ensures var (v, code) := Exchange(w, Begin, o);
      Agree(v) && v.conn.ok && code != Blocked && v.server.commits == w.server.commits
  {
  }

  lemma ItemRest(parts: seq<Data>, e: Ending)
    ensures Item(parts, e) != [] && Rest(Item(parts, e)) && LastOf(Item(parts, e)) == Terminator(e)
    ensures parts != [] ==> Item(parts, e)[0] == ItemPart(parts[0])
    ensures parts != [] ==> Rest(Item(parts, e)[1..]) && LastOf(Item(parts, e)[1..]) == Terminator(e)
  {
  }

  /** Taking in the first message of an item the server has just produced. */
  lemma ItemAgree(w: World, parts: seq<Data>, e: Ending)
    requires w.conn.ok && w.conn.active && w.conn.local == [] && w.channel == Item(parts, e)
    requires Fits(w.server, Terminator(e)) && (w.server.running ==> w.server.inner)
    ensures var (v, code) := ItemReply(w); Agree(v) && v.conn.ok && code != Blocked
  {
    ItemRest(parts, e);
  }

  lemma CommitAgree(w: World, o: Oracle)
    requires Idle(w)
    ensures var (v, code) := Exchange(w, Commit, o); Agree(v) && v.conn.ok && code != Blocked
    ensures var (v, code) := Exchange(w, Commit, o);
      v.server.commits == w.server.commits + (if code == CommitSucceeded then 1 else 0)
  {
  }

  lemma RollbackAgree(w: World, o: Oracle)
    requires Idle(w)
    ensures var (v, code) := Exchange(w, Rollback, o);
      Agree(v) && v.conn.ok && code != Blocked && v.server.commits == w.server.commits
  {
  }

  lemma AnswerAgree(w: World, parts: seq<Data>, e: Ending)
    requires Idle(w) && w.server.inner
    ensures var (v, code) := ExecuteReply(w.(server := AfterItem(w.server, e), channel := [QuerySucceeded] + Item(parts, e)));
      Agree(v) && v.conn.ok && code != Blocked
  {
    var u := w.(server := AfterItem(w.server, e), channel := [QuerySucceeded] + Item(parts, e));
    var v := u.(channel := u.channel[1..]);
    assert v.channel == Item(parts, e);
    ItemAgree(v, parts, e);
  }

  lemma ExecuteAgree(w: World, o: Oracle)
    requires Idle(w)
    ensures var (v, code) := Exchange(w, Execute, o);
      Agree(v) && v.conn.ok && code != Blocked && v.server.commits == w.server.commits
  {
    if w.server.inner && o.work.Answer? {
      var parts, e := o.work.parts, o.work.ending;
      assert Send(w, ExecuteQuery, o) ==
        w.(server := AfterItem(w.server, e), channel := [QuerySucceeded] + Item(parts, e));
      AnswerAgree(w, parts, e);
    }
  }

  /** A next that reaches the server hangs exactly when the statement is over there. */
  lemma NextAgree(w: World, o: Oracle)
    requires Idle(w) && w.conn.inQuery
    ensures var (v, code) := Exchange(w, Next, o);
      && (code == Blocked <==> w.server.inner && !w.server.running)
      && (code != Blocked ==> Agree(v) && v.conn.ok)
      && v.server.commits == w.server.commits
  {
    var u := Send(w, GetNextItem, o);
    if w.server.inner && w.server.running && o.work.Answer? {
      assert u.channel == Item(o.work.parts, o.work.ending);
      ItemAgree(u, o.work.parts, o.work.ending);
    }
  }

  // Reading an item

  /** The data of the parts in flight. */
  function Payload(ch: seq<Reply>): seq<Byte> {
    if ch == [] || !ch[0].ItemPart? then [] else ch[0].data + Payload(ch[1..])
  }

  /** What the client has not read of the current item. */
  function Unread(w: World): seq<Byte> {
    w.conn.local + Payload(w.channel)
  }

  /** The item breaks off in an error. */
  predicate Fails(w: World) {
    w.conn.ok && w.conn.keeps && w.channel != [] && LastOf(w.channel).ErrorResponse?
  }

  /** Reading past the parts: the terminator is taken in. */
  function AtItemEnd(c: Conn, end: Reply, got: seq<Byte>): (Conn, seq<Reply>, Code) {
    match end
    case ItemEnd => (c.(keeps := false), [], Got(got))
    case ResultEnd => (c.(resultEnd := true, keeps := false), [], Got(got))
    case _ => (c.(active := false, resultEnd := true, keeps := false), [], Error)
  }

  lemma CutInside(got: seq<Byte>, d: seq<Byte>, u: seq<Byte>, n: nat)
    requires n <= |d|
    ensures got + d[..n] == got + (d + u)[..n] && d[n..] + u == (d + u)[n..]
  {
    assert (d + u)[..n] == d[..n];
  }

  lemma CutBeyond(got: seq<Byte>, d: seq<Byte>, u: seq<Byte>, n: nat)
    requires |d| <= n <= |d| + |u|
    ensures got + d + u[..n - |d|] == got + (d + u)[..n] && u[n - |d|..] == (d + u)[n..]
  {
    assert (d + u)[..n] == d + u[..n - |d|];
  }

  lemma RestTail(ch: seq<Reply>)
    requires Rest(ch)
    ensures |ch| > 1 ==> ch[0].ItemPart? && Rest(ch[1..]) && LastOf(ch[1..]) == LastOf(ch)
    ensures |ch| > 1 ==> Payload(ch) == ch[0].data + Payload(ch[1..])
    ensures |ch| == 1 ==> Payload(ch) == [] && ch[1..] == []
  {
  }

  /** Enough data in flight: it is delivered in order, and the rest stays. */
  lemma {:induction false} FetchWithin(c: Conn, ch: seq<Reply>, n: nat, got: seq<Byte>)
    requires c.keeps && c.local == [] && Rest(ch) && n <= |Payload(ch)|
    ensures var (d, rest, code) := Fetch(c, ch, n, got);
      && d == c.(local := d.local) && Rest(rest) && LastOf(rest) == LastOf(ch)
      && d.local + Payload(rest) == Payload(ch)[n..] && code == Got(got + Payload(ch)[..n])
    decreases ch
  {
    RestTail(ch);
    if n == 0 {
      assert got + Payload(ch)[..0] == got;
    } else {
      var d: seq<Byte>, tail := ch[0].data, ch[1..];
      if |d| > n {
        CutInside(got, d, Payload(tail), n);
      } else {
        FetchWithin(c, tail, n - |d|, got + d);
        CutBeyond(got, d, Payload(tail), n);
      }
    }
  }

  /** Too little data in flight: all of it is delivered, and the terminator is taken in. */
  lemma {:induction false} FetchPast(c: Conn, ch: seq<Reply>, n: nat, got: seq<Byte>)
    requires c.keeps && c.local == [] && Rest(ch) && n > |Payload(ch)|
    ensures Fetch(c, ch, n, got) == AtItemEnd(c, LastOf(ch), got + Payload(ch))
    decreases ch
  {
    RestTail(ch);
    if |ch| == 1 {
      assert got + [] == got;
    } else {
      var d: seq<Byte>, tail := ch[0].data, ch[1..];
      FetchPast(c, tail, n - |d|, got + d);
      assert got + d + Payload(tail) == got + (d + Payload(tail));
    }
  }

  /** A read within the item returns its next n bytes. */
  lemma ReadWithin(w: World, n: nat)
    requires Agree(w) && w.conn.ok && n <= |Unread(w)|
    ensures var (v, code) := GetData(w, n);
      && Agree(v) && v.conn.ok && v.server == w.server
      && code == Got(Unread(w)[..n]) && Unread(v) == Unread(w)[n..] && (Fails(v) <==> Fails(w))
  {
    var c := w.conn;
    if c.keeps && n > |c.local| {
      FetchWithin(c.(local := []), w.channel, n - |c.local|, [] + c.local);
      CutBeyond([], c.local, Payload(w.channel), n);
    } else {
      CutInside([], c.local, Payload(w.channel), n);
      assert [] + c.local[..n] == c.local[..n];
    }
  }

  /** A read past the item returns what is left of it, unless the server broke it off:
      then the error is reported and the transaction is over on both sides. */
  lemma ReadPast(w: World, n: nat)
    requires Agree(w) && w.conn.ok && n > |Unread(w)|
    ensures var (v, code) := GetData(w, n);
      && Agree(v) && v.conn.ok && v.server == w.server
      && Unread(v) == [] && !Fails(v) && !v.conn.keeps
      && code == (if Fails(w) then Error else Got(Unread(w)))
  {
    var c := w.conn;
    if c.keeps {
      FetchPast(c.(local := []), w.channel, n - |c.local|, [] + c.local);
    }
  }
}
