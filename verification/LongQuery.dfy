/**
 Sending a query to the server (SEexecute) and putting it together there
 (get_query_string). A query that does not fit one message travels as a run of
 portions closed by an end message.
 */
module LongQuery {
  import opened Sequences
  import opened Sp

  const EXECUTE: Int32 := 300
  const EXECUTE_LONG: Int32 := 301
  const LONG_QUERY_END: Int32 := 302
  const MAX_QUERY: int := 2097152
  const PORTION: int := BUF - 6

  /** Result format, string format, length, text. */
  function QueryBody(text: seq<Byte>): (b: seq<Byte>)
    requires |text| <= PORTION
    ensures |b| == |text| + 6 && b[2..6] == Put32(|text|) && b[6..] == text
  {
    [0, 0] + Put32(|text|) + text
  }

  predicate Portions(parts: seq<seq<Byte>>) {
    forall i :: 0 <= i < |parts| ==> |parts[i]| <= PORTION
  }

  /** The bytes of a run of portions with its end message. */
  function LongWire(parts: seq<seq<Byte>>): (w: seq<Byte>)
    requires Portions(parts)
  {
    if parts == [] then Encode(Message(LONG_QUERY_END, []))
    else Encode(Message(EXECUTE_LONG, QueryBody(parts[0]))) + LongWire(parts[1..])
  }

  /** The portions the client cuts a text into. */
  function Cut(text: seq<Byte>): (parts: seq<seq<Byte>>)
    ensures Portions(parts)
  {
    if text == [] then []
    else
      var n := if |text| >= PORTION then PORTION else |text|;
      [text[..n]] + Cut(text[n..])
  }

  lemma {:induction false} JoinedCut(text: seq<Byte>)
    ensures Joined(Cut(text)) == text
  {
    if text != [] {
      var n := if |text| >= PORTION then PORTION else |text|;
      JoinedCut(text[n..]);
      assert Cut(text)[1..] == Cut(text[n..]);
    }
  }

  /** The bytes that carry a query. */
  function QueryWire(query: seq<Byte>): (w: seq<Byte>) {
    if |query| > PORTION then LongWire(Cut(query)) else Encode(Message(EXECUTE, QueryBody(query)))
  }

  /** The bytes still owed once the first i characters of a long query are out. */
  ghost function Owed(query: seq<Byte>, i: nat): seq<Byte>
    requires i <= |query|
  {
    LongWire(Cut(query[i..]))
  }

  lemma OwedStep(query: seq<Byte>, i: nat, n: nat)
    requires i < |query| && n == (if |query| - i >= PORTION then PORTION else |query| - i)
    ensures Owed(query, i) == Encode(Message(EXECUTE_LONG, QueryBody(query[i..i + n]))) + Owed(query, i + n)
  {
    var left := query[i..];
    assert left[..n] == query[i..i + n] && left[n..] == query[i + n..];
    var parts := Cut(left);
    assert parts[0] == left[..n] && parts[1..] == Cut(left[n..]);
  }

  lemma Regroup(a: seq<Byte>, b: seq<Byte>, c: seq<Byte>)
    ensures (a + b) + c == a + (b + c)
  {
  }

  method SendPortion(s: Socket, query: seq<Byte>, i: nat) returns (rc: int, n: nat)
    requires i < |query|
    modifies s`outgoing
    ensures 0 < n <= |query| - i && old(s.outgoing) <= s.outgoing <= old(s.outgoing) + Owed(query, i)
    ensures rc == OK ==> s.outgoing + Owed(query, i + n) == old(s.outgoing) + Owed(query, i)
  {
    n := if |query| - i >= PORTION then PORTION else |query| - i;
    OwedStep(query, i, n);
    var m := Message(EXECUTE_LONG, QueryBody(query[i..i + n]));
    Regroup(s.outgoing, Encode(m), Owed(query, i + n));
    rc := SendMsg(s, m);
  }

  method SendLong(s: Socket, query: seq<Byte>) returns (rc: int)
    modifies s`outgoing
    ensures old(s.outgoing) <= s.outgoing <= old(s.outgoing) + Owed(query, 0)
    ensures rc == OK ==> s.outgoing == old(s.outgoing) + Owed(query, 0)
  {
    var i := 0;
    while i < |query|
      invariant 0 <= i <= |query|
      invariant old(s.outgoing) <= s.outgoing && s.outgoing + Owed(query, i) == old(s.outgoing) + Owed(query, 0)
    {
      var n;
      rc, n := SendPortion(s, query, i);
      if rc != OK {
        return;
      }
      i := i + n;
    }
    assert query[i..] == [];
    assert Owed(query, i) == Encode(Message(LONG_QUERY_END, []));
    rc := SendMsg(s, Message(LONG_QUERY_END, []));
  }

  method SendQuery(s: Socket, query: seq<Byte>) returns (rc: int)
    modifies s`outgoing
    ensures old(s.outgoing) <= s.outgoing <= old(s.outgoing) + QueryWire(query)
    ensures rc == OK ==> s.outgoing == old(s.outgoing) + QueryWire(query)
  {
    if |query| > PORTION {
      assert query[0..] == query;
      rc := SendLong(s, query);
    } else {
      rc := SendMsg(s, Message(EXECUTE, QueryBody(query)));
    }
  }

  // The server's side

  /** The text, or why there is none: the query is too large; the connection is lost; a
      message is too long; a portion announces more than its message holds, which the
      source does not check. */
  datatype Reply = Text(text: seq<Byte>) | TooLarge | Lost | Refused | OverRun

  function Outcome(query: seq<Byte>): Reply {
    if |query| > MAX_QUERY then TooLarge else Text(query)
  }

  function Announced(body: seq<Byte>): nat
    requires |body| == BUF
  {
    Unsigned(Get32(body[2..6]))
  }

  datatype Assembly = Assembly(reply: Reply, rest: seq<Byte>)

  /** What the reassembly makes of any stream, from the message at hand and the text done.
      A message shorter than the one before it leaves the end of that one in the body. */
  function Assemble(w: seq<Byte>, instruction: Int32, body: seq<Byte>, done: seq<Byte>): Assembly
    requires |body| == BUF
    decreases |w|
  {
    if instruction == LONG_QUERY_END then Assembly(Outcome(done), w)
    else if |done| > MAX_QUERY then Onward(w, body, done)
    else if Announced(body) > PORTION then Assembly(OverRun, w)
    else Onward(w, body, done + body[6..6 + Announced(body)])
  }

  /** On to the next message. */
  function Onward(w: seq<Byte>, body: seq<Byte>, done: seq<Byte>): Assembly
    requires |body| == BUF
    decreases |w|, 0
  {
    match Parse(w)
    case Received(instruction, _, b, rest) => Assemble(rest, instruction, b + body[|b|..], done)
    case TooLong(_) => Assembly(Refused, w)
    case Broken => Assembly(Lost, w)
  }

  /** The body holds a query message with this text. */
  ghost predicate Holds(body: seq<Byte>, text: seq<Byte>) {
    |body| == BUF && |text| <= PORTION && body[2..6] == Put32(|text|) && body[6..6 + |text|] == text
  }

  lemma BodyHolds(body: seq<Byte>, text: seq<Byte>)
    requires |body| == BUF && |text| <= PORTION && QueryBody(text) <= body
    ensures Holds(body, text)
  {
    var b := QueryBody(text);
    assert body[..|b|] == b;
    assert body[2..6] == b[2..6] && body[6..6 + |text|] == b[6..];
  }

  lemma HoldsText(body: seq<Byte>, text: seq<Byte>)
    requires Holds(body, text)
    ensures Announced(body) == |text| && body[6..6 + Announced(body)] == text
  {
    Get32Put32(|text|);
  }

  /** The message at hand begins a run and the stream has the rest of it. */
  ghost predicate Pending(w: seq<Byte>, instruction: Int32, body: seq<Byte>, left: seq<seq<Byte>>, tail: seq<Byte>) {
    && |body| == BUF && Portions(left)
    && if left == [] then instruction == LONG_QUERY_END && w == tail
       else instruction == EXECUTE_LONG && Holds(body, left[0]) && w == LongWire(left[1..]) + tail
  }

  /** The message that opens a run, and what is on the wire after it. */
  ghost function Opening(left: seq<seq<Byte>>): (x: Message)
    requires Portions(left)
    ensures |x.body| <= BUF
  {
    if left == [] then Message(LONG_QUERY_END, []) else Message(EXECUTE_LONG, QueryBody(left[0]))
  }

  ghost function Beyond(left: seq<seq<Byte>>, tail: seq<Byte>): seq<Byte>
    requires Portions(left)
  {
    if left == [] then tail else LongWire(left[1..]) + tail
  }

  lemma {:induction false} OpeningWire(left: seq<seq<Byte>>, tail: seq<Byte>)
    requires Portions(left)
    ensures LongWire(left) + tail == Encode(Opening(left)) + Beyond(left, tail)
  {
    if left != [] {
      Regroup(Encode(Opening(left)), LongWire(left[1..]), tail);
    }
  }

  lemma {:induction false} OpeningPending(left: seq<seq<Byte>>, tail: seq<Byte>, body: seq<Byte>)
    requires |body| == BUF && Portions(left)
    ensures var x := Opening(left); Pending(Beyond(left, tail), x.instruction, x.body + body[|x.body|..], left, tail)
  {
    if left != [] {
      var b := QueryBody(left[0]);
      BodyHolds(b + body[|b|..], left[0]);
    }
  }

  /** The next message of a run is at hand. */
  lemma {:induction false} OnwardRun(left: seq<seq<Byte>>, tail: seq<Byte>, body: seq<Byte>, done: seq<Byte>)
    requires |body| == BUF && Portions(left)
    ensures var x := Opening(left);
      Onward(LongWire(left) + tail, body, done) == Assemble(Beyond(left, tail), x.instruction, x.body + body[|x.body|..], done)
  {
    OpeningWire(left, tail);
    ParseEncode(Opening(left), Beyond(left, tail));
  }

  /** A run of portions comes together, too large exactly if it exceeds the limit, and is
      consumed through its end message and no further. */
  lemma {:induction false} AssembleRun(w: seq<Byte>, instruction: Int32, body: seq<Byte>, done: seq<Byte>,
                                       left: seq<seq<Byte>>, tail: seq<Byte>)
    requires Pending(w, instruction, body, left, tail)
    ensures Assemble(w, instruction, body, done) == Assembly(Outcome(done + Joined(left)), tail)
    decreases |left|
  {
    if left == [] {
      assert done + Joined(left) == done;
    } else {
      HoldsText(body, left[0]);
      var rest, x := left[1..], Opening(left[1..]);
      var next := x.body + body[|x.body|..];
      var done1 := if |done| > MAX_QUERY then done else done + left[0];
      OnwardRun(rest, tail, body, done1);
      OpeningPending(rest, tail, body);
      AssembleRun(Beyond(rest, tail), x.instruction, next, done1, rest, tail);
      Regroup(done, left[0], Joined(rest));
    }
  }

  /** The stream buffer grown by two messages. */
  method Grow(buf: array<Byte>) returns (bigger: array<Byte>)
    ensures fresh(bigger) && bigger.Length == buf.Length + 2 * BUF
    ensures bigger[..buf.Length] == buf[..]
  {
    bigger := new Byte[buf.Length + 2 * BUF](_ => 0);
    forall k | 0 <= k < buf.Length {
      bigger[k] := buf[k];
    }
  }

  method CopyPortion(buf: array<Byte>, size: nat, body: array<Byte>, n: nat)
    requires body.Length == BUF && body != buf && n <= PORTION && size + n <= buf.Length
    modifies buf
    ensures buf[..size + n] == old(buf[..size]) + body[6..6 + n]
  {
    forall k | 0 <= k < n {
      buf[size + k] := body[6 + k];
    }
  }

  /** What the reassembly variables say about the text done so far. */
  ghost predicate Assembled(buf: array<Byte>, size: nat, tooLarge: bool, done: seq<Byte>)
    reads buf
  {
    && (tooLarge <==> |done| > MAX_QUERY)
    && (!tooLarge ==> |done| == size < buf.Length && buf[..size] == done)
  }

  /** One portion: the buffer is grown first if the portion does not fit. */
  method TakePortion(buf0: array<Byte>, size0: nat, body: array<Byte>, n: nat, ghost done: seq<Byte>)
    returns (buf: array<Byte>, size: nat, tooLarge: bool)
    requires body.Length == BUF && body != buf0 && n <= PORTION && Assembled(buf0, size0, false, done)
    modifies buf0
    ensures (buf == buf0 || fresh(buf)) && body[..] == old(body[..])
    ensures Assembled(buf, size, tooLarge, done + body[6..6 + n])
  {
    buf := buf0;
    if size0 + n > buf0.Length - 1 {
      buf := Grow(buf0);
      assert buf[..size0] == buf[..buf0.Length][..size0] == buf0[..size0];
    }
    CopyPortion(buf, size0, body, n);
    size := size0 + n;
    tooLarge := size > MAX_QUERY;
  }

  /** The next message, or the failure to get one. */
  method NextMessage(s: Socket, m: MsgStruct, ghost done: seq<Byte>) returns (failed: bool, r: Reply)
    requires m.Valid()
    modifies s`incoming, m, m.body
    ensures failed ==> Onward(old(s.incoming), old(m.body[..]), done).reply == r && (r.Lost? || r.Refused?)
    ensures !failed ==>
      && |s.incoming| < |old(s.incoming)|
      && Onward(old(s.incoming), old(m.body[..]), done) == Assemble(s.incoming, m.instruction, m.body[..], done)
  {
    ghost var w, was := s.incoming, m.body[..];
    var rc := RecvMsg(s, m);
    if rc == SOCKET_ERROR {
      return true, Lost;
    } else if rc == TOO_LONG {
      return true, Refused;
    }
    ghost var b := Parse(w).body;
    assert m.body[..] == b + was[|b|..];
    return false, TooLarge;
  }

  /** Reassembles a long query from any stream. Every store is within the buffer. */
  method GetLongQuery(s: Socket, m: MsgStruct) returns (r: Reply)
    requires m.Valid()
    modifies s`incoming, m, m.body
    ensures var a := old(Assemble(s.incoming, m.instruction, m.body[..], []));
      r == a.reply && (r.Text? || r.TooLarge? ==> s.incoming == a.rest)
  {
    var buf := new Byte[BUF * 5 + 1](_ => 0);
    var size: nat := 0;
    var tooLarge := false;
    ghost var done: seq<Byte>, a := [], Assemble(s.incoming, m.instruction, m.body[..], []);
    while m.instruction != LONG_QUERY_END
      invariant fresh(buf) && buf != m.body && Assembled(buf, size, tooLarge, done)
      invariant Assemble(s.incoming, m.instruction, m.body[..], done) == a
      decreases |s.incoming|
    {
      if !tooLarge {
        var n := Unsigned(Get32(m.body[2..6]));
        if n > PORTION {
          return OverRun;
        }
        ghost var text := m.body[6..6 + n];
        buf, size, tooLarge := TakePortion(buf, size, m.body, n, done);
        done := done + text;
      }
      var failed, why := NextMessage(s, m, done);
      if failed {
        return why;
      }
    }
    if tooLarge {
      return TooLarge;
    }
    buf[size] := 0;
    r := Text(buf[..size]);
  }

  /** get_query_string, from any message. */
  method GetQueryString(s: Socket, m: MsgStruct) returns (r: Reply)
    requires m.Valid()
    modifies s`incoming, m, m.body
    ensures old(m.instruction) == EXECUTE_LONG ==>
      var a := old(Assemble(s.incoming, m.instruction, m.body[..], []));
      r == a.reply && (r.Text? || r.TooLarge? ==> s.incoming == a.rest)
    ensures old(m.instruction) != EXECUTE_LONG ==>
      var n := old(Announced(m.body[..]));
      r == (if n > PORTION then OverRun else Text(old(m.body[6..6 + n]))) && s.incoming == old(s.incoming)
  {
    if m.instruction == EXECUTE_LONG {
      r := GetLongQuery(s, m);
    } else {
      var n := Unsigned(Get32(m.body[2..6]));
      assert m.body[2..6] == m.body[..][2..6];
      if n > PORTION {
        return OverRun;
      }
      var buf := new Byte[BUF + 1](_ => 0);
      CopyPortion(buf, 0, m.body, n);
      buf[n] := 0;
      r := Text(buf[..n]);
    }
  }

  lemma FirstReceived(query: seq<Byte>, tail: seq<Byte>, body: seq<Byte>)
    requires |body| == BUF
    ensures var r := Parse(QueryWire(query) + tail);
      && r.Received?
      && var next := r.body + body[|r.body|..];
         if |query| > PORTION then Pending(r.rest, r.instruction, next, Cut(query), tail)
         else r.instruction == EXECUTE && Holds(next, query) && r.rest == tail
  {
    if |query| > PORTION {
      OpeningWire(Cut(query), tail);
      ParseEncode(Opening(Cut(query)), Beyond(Cut(query), tail));
      OpeningPending(Cut(query), tail, body);
    } else {
      var b := QueryBody(query);
      ParseEncode(Message(EXECUTE, b), tail);
      BodyHolds(b + body[|b|..], query);
    }
  }

  /** The first message of a query. */
  method ReadFirst(s: Socket, m: MsgStruct, ghost query: seq<Byte>, ghost tail: seq<Byte>)
    requires m.Valid() && s.incoming == QueryWire(query) + tail
    modifies s`incoming, m, m.body
    ensures |query| > PORTION ==> Pending(s.incoming, m.instruction, m.body[..], Cut(query), tail)
    ensures |query| <= PORTION ==> m.instruction == EXECUTE && Holds(m.body[..], query) && s.incoming == tail
  {
    ghost var w, was := s.incoming, m.body[..];
    FirstReceived(query, tail, was);
    var _ := RecvMsg(s, m);
    ghost var b := Parse(w).body;
    assert m.body[..] == b + was[|b|..];
  }

  /** Reading a query off the connection gives back what the client sent, whatever its
      length and however the stream is cut up. */
  method ReadQuery(s: Socket, m: MsgStruct, ghost query: seq<Byte>, ghost tail: seq<Byte>) returns (r: Reply)
    requires m.Valid() && s.incoming == QueryWire(query) + tail
    modifies s`incoming, m, m.body
    ensures r == Outcome(query) && s.incoming == tail
  {
    ReadFirst(s, m, query, tail);
    if |query| > PORTION {
      JoinedCut(query);
      AssembleRun(s.incoming, m.instruction, m.body[..], [], Cut(query), tail);
    } else {
      HoldsText(m.body[..], query);
    }
    r := GetQueryString(s, m);
  }
}
