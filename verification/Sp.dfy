/**
 Framing of client/server messages over a byte stream (sp_send_msg, sp_recv_msg).
 The socket hands over the stream in pieces of any size, so what is proved holds for
 every fragmentation.
 */
module Sp {

  const BUF: int := 10240

  type Byte = x: int | 0 <= x < 256
  type Int32 = x: int | -0x8000_0000 <= x < 0x8000_0000

  /** Without the byte that ends a C string. */
  predicate ZeroFree(text: seq<Byte>) {
    forall i :: 0 <= i < |text| ==> text[i] != 0
  }

  const OK: int := 0
  const TOO_LONG: int := 1
  const SOCKET_ERROR: int := -1

  datatype Message = Message(instruction: Int32, body: seq<Byte>)

  /** Network byte order. */
  function Put32(v: Int32): (b: seq<Byte>)
    ensures |b| == 4
  {
    var u := if v < 0 then v + 0x1_0000_0000 else v;
    [u / 0x100 / 0x100 / 0x100, u / 0x100 / 0x100 % 0x100, u / 0x100 % 0x100, u % 0x100]
  }

  function Get32(b: seq<Byte>): (v: Int32)
    requires |b| == 4
  {
    var u := ((b[0] as int * 0x100 + b[1] as int) * 0x100 + b[2] as int) * 0x100 + b[3] as int;
    if u < 0x8000_0000 then u else u - 0x1_0000_0000
  }

  lemma Get32Put32(v: Int32)
    ensures Get32(Put32(v)) == v
  {
  }

  lemma Digit(x: int, d: Byte)
    ensures (x * 0x100 + d) / 0x100 == x && (x * 0x100 + d) % 0x100 == d
  {
  }

  lemma Put32Get32(b: seq<Byte>)
    requires |b| == 4
    ensures Put32(Get32(b)) == b
  {
    var x1: int := b[0] as int * 0x100 + b[1] as int;
    var x2: int := x1 * 0x100 + b[2] as int;
    Digit(b[0], b[1]);
    Digit(x1, b[2]);
    Digit(x2, b[3]);
  }

  function Encode(m: Message): (w: seq<Byte>)
    requires |m.body| <= BUF
    ensures |w| == 8 + |m.body|
  {
    Put32(m.instruction) + Put32(|m.body|) + m.body
  }

  /** Lengths travel unsigned. */
  function Unsigned(v: Int32): nat {
    if v < 0 then v + 0x1_0000_0000 else v
  }

  /** What one receive makes of a stream. A negative length passes as an empty body. */
  datatype Receipt =
    | Received(instruction: Int32, length: Int32, body: seq<Byte>, rest: seq<Byte>)
    | TooLong(after: seq<Byte>)
    | Broken

  function Parse(w: seq<Byte>): (r: Receipt)
    ensures r.Received? ==> r.length <= BUF && |r.body| == (if r.length < 0 then 0 else r.length) && |r.rest| < |w|
  {
    if |w| < 8 then Broken
    else
      var length := Get32(w[4..8]);
      if length > BUF then TooLong(w[8..])
      else if length <= 0 then Received(Get32(w[..4]), length, [], w[8..])
      else if |w| < 8 + length then Broken
      else Received(Get32(w[..4]), length, w[8..8 + length], w[8 + length..])
  }

  /** A sent message is received as it was, and nothing beyond it is consumed. */
  lemma ParseEncode(m: Message, tail: seq<Byte>)
    requires |m.body| <= BUF
    ensures Parse(Encode(m) + tail) == Received(m.instruction, |m.body|, m.body, tail)
  {
    var w := Encode(m) + tail;
    assert w[..4] == Put32(m.instruction) && w[4..8] == Put32(|m.body|);
    assert w[8..8 + |m.body|] == m.body && w[8 + |m.body|..] == tail;
    assert |m.body| == 0 ==> m.body == [];
    Get32Put32(m.instruction);
    Get32Put32(|m.body|);
  }

  /** Only an encoding is received with a proper length. */
  lemma EncodeParse(w: seq<Byte>)
    requires Parse(w).Received? && Parse(w).length >= 0
    ensures var r := Parse(w); w == Encode(Message(r.instruction, r.body)) + r.rest
  {
    var r := Parse(w);
    Put32Get32(w[..4]);
    Put32Get32(w[4..8]);
    assert w == w[..4] + w[4..8] + w[8..];
    assert w[8..] == r.body + r.rest;
  }

  /** A stream gives a message of proper length if and only if it begins with the encoding of
      one; in particular a broken stream, or one refused as too long, begins with none. */
  lemma ReceivedIff(w: seq<Byte>)
    ensures Parse(w).Received? && Parse(w).length >= 0 <==> exists m: Message :: |m.body| <= BUF && Encode(m) <= w
  {
    if Parse(w).Received? && Parse(w).length >= 0 {
      EncodeParse(w);
      assert Encode(Message(Parse(w).instruction, Parse(w).body)) <= w;
    } else if m: Message :| |m.body| <= BUF && Encode(m) <= w {
      ParseEncode(m, w[|Encode(m)|..]);
      assert w == Encode(m) + w[|Encode(m)|..];
    }
  }

  /** One end of a connection: bytes still to arrive, and bytes handed to the peer. */
  class Socket {
    var incoming: seq<Byte>
    var outgoing: seq<Byte>

    /** Some positive number of bytes, or none once the peer has closed. */
    method Recv(n: nat) returns (chunk: seq<Byte>)
      requires n > 0
      modifies this`incoming
      ensures old(incoming) == chunk + incoming && |chunk| <= n
      ensures chunk == [] <==> old(incoming) == []
    {
      if incoming == [] {
        return [];
      }
      var k :| 1 <= k <= n && k <= |incoming|;
      chunk := incoming[..k];
      incoming := incoming[k..];
    }

    /** Some positive number of the bytes offered, or a failure. */
    method Send(bytes: seq<Byte>) returns (rc: int)
      requires bytes != []
      modifies this`outgoing
      ensures rc == SOCKET_ERROR || 1 <= rc <= |bytes|
      ensures outgoing == old(outgoing) + (if rc > 0 then bytes[..rc] else [])
    {
      var k :| -1 <= k <= |bytes| && k != 0;
      if k == -1 {
        return SOCKET_ERROR;
      }
      outgoing := outgoing + bytes[..k];
      rc := k;
    }
  }

  /** The message structure a receive fills in. */
  class MsgStruct {
    var instruction: Int32
    var length: Int32
    const body: array<Byte>

    ghost predicate Valid() {
      body.Length == BUF
    }

    constructor ()
      ensures Valid() && fresh(body)
    {
      instruction, length := 0, 0;
      body := new Byte[BUF](_ => 0);
    }
  }

  method RecvHeader(s: Socket) returns (rc: int, head: seq<Byte>)
    modifies s`incoming
    ensures rc == OK || rc == SOCKET_ERROR
    ensures rc == OK <==> |old(s.incoming)| >= 8
    ensures rc == OK ==> |head| == 8 && old(s.incoming) == head + s.incoming
  {
    head := [];
    while |head| < 8
      invariant |head| <= 8 && old(s.incoming) == head + s.incoming
      decreases 8 - |head|
    {
      var chunk := s.Recv(8 - |head|);
      if chunk == [] {
        return SOCKET_ERROR, head;
      }
      head := head + chunk;
    }
    rc := OK;
  }

  method RecvBody(s: Socket, m: MsgStruct) returns (rc: int)
    requires m.Valid() && m.length <= BUF
    modifies s`incoming, m.body
    ensures rc == OK || rc == SOCKET_ERROR
    ensures rc == OK <==> |old(s.incoming)| >= m.length
    ensures rc == OK && m.length > 0 ==> old(s.incoming) == m.body[..m.length] + s.incoming
    ensures m.length <= 0 ==> s.incoming == old(s.incoming)
    ensures rc == OK ==> m.body[if m.length < 0 then 0 else m.length..] == old(m.body[if m.length < 0 then 0 else m.length..])
  {
    var got := 0;
    while got < m.length
      invariant 0 <= got && (got <= m.length || got == 0)
      invariant old(s.incoming) == m.body[..got] + s.incoming && m.body[got..] == old(m.body[got..])
      decreases m.length - got
    {
      var chunk := s.Recv(m.length - got);
      if chunk == [] {
        return SOCKET_ERROR;
      }
      ghost var before := m.body[..got];
      forall k | 0 <= k < |chunk| {
        m.body[got + k] := chunk[k];
      }
      assert m.body[..got + |chunk|] == before + chunk;
      got := got + |chunk|;
    }
    rc := OK;
  }

  /** Receiving agrees with Parse on every stream and every fragmentation of it. */
  method RecvMsg(s: Socket, m: MsgStruct) returns (rc: int)
    requires m.Valid()
    modifies s`incoming, m, m.body
    ensures match Parse(old(s.incoming))
      case Received(instruction, length, body, rest) =>
        && rc == OK && m.instruction == instruction && m.length == length
        && m.body[..|body|] == body && m.body[|body|..] == old(m.body[|body|..]) && s.incoming == rest
      case TooLong(after) => rc == TOO_LONG && s.incoming == after
      case Broken => rc == SOCKET_ERROR
  {
    ghost var w := s.incoming;
    var head;
    rc, head := RecvHeader(s);
    if rc != OK {
      return;
    }
    assert w[..4] == head[..4] && w[4..8] == head[4..8] && w[8..] == s.incoming;
    m.instruction := Get32(head[..4]);
    m.length := Get32(head[4..8]);
    if m.length > BUF {
      return TOO_LONG;
    }
    rc := RecvBody(s, m);
  }

  /** A prefix of the encoding is sent, all of it on success. */
  method SendAll(s: Socket, bytes: seq<Byte>) returns (rc: int)
    modifies s`outgoing
    ensures rc == OK || rc == SOCKET_ERROR
    ensures old(s.outgoing) <= s.outgoing <= old(s.outgoing) + bytes
    ensures rc == OK ==> s.outgoing == old(s.outgoing) + bytes
  {
    var sent := 0;
    while sent < |bytes|
      invariant 0 <= sent <= |bytes| && s.outgoing == old(s.outgoing) + bytes[..sent]
    {
      var n := s.Send(bytes[sent..]);
      if n == SOCKET_ERROR {
        return SOCKET_ERROR;
      }
      assert bytes[..sent] + bytes[sent..][..n] == bytes[..sent + n];
      sent := sent + n;
    }
    rc := OK;
  }

  method SendMsg(s: Socket, m: Message) returns (rc: int)
    requires |m.body| <= BUF
    modifies s`outgoing
    ensures rc == OK || rc == SOCKET_ERROR
    ensures old(s.outgoing) <= s.outgoing <= old(s.outgoing) + Encode(m)
    ensures rc == OK ==> s.outgoing == old(s.outgoing) + Encode(m)
  {
    rc := SendAll(s, Put32(m.instruction) + Put32(|m.body|));
    if rc == OK {
      rc := SendAll(s, m.body);
    }
  }

  // Error messages

  /** What of an error text fits one message: all of it, or its beginning and three dots. */
  function Shown(info: seq<Byte>): (r: seq<Byte>)
    ensures |r| <= BUF - 9 && (r == info <==> |info| <= BUF - 9)
  {
    if |info| > BUF - 9 then info[..BUF - 12] + [46, 46, 46] else info
  }

  /** Code, string format, length, text. */
  function ErrorBody(code: Int32, info: seq<Byte>): (b: seq<Byte>)
    ensures |b| == 9 + |Shown(info)| <= BUF
  {
    Put32(code) + [0] + Put32(|Shown(info)|) + Shown(info)
  }

  /** Fills the message in place, truncating the text if it has to. */
  method MakeErrorBody(code: Int32, info: seq<Byte>, body: array<Byte>) returns (length: nat)
    requires body.Length == BUF
    modifies body
    ensures length <= BUF && body[..length] == ErrorBody(code, info)
  {
    var truncated := |info| > BUF - 9;
    var n := if truncated then BUF - 9 else |info|;
    var head := Put32(code) + [0] + Put32(n);
    forall k | 0 <= k < 9 {
      body[k] := head[k];
    }
    var copied := if truncated then BUF - 12 else n;
    forall k | 0 <= k < copied {
      body[9 + k] := info[k];
    }
    if truncated {
      body[BUF - 3], body[BUF - 2], body[BUF - 1] := 46, 46, 46;
    }
    length := 9 + n;
    ghost var b, text := body[..length], Shown(info);
    assert b[..9] == head;
    assert forall k :: 0 <= k < n ==> b[9 + k] == text[k];
    ErrorParts(b, head, text);
  }

  lemma ErrorParts(b: seq<Byte>, head: seq<Byte>, text: seq<Byte>)
    requires |head| == 9 && |b| == 9 + |text| && b[..9] == head && forall k :: 0 <= k < |text| ==> b[9 + k] == text[k]
    ensures b == head + text
  {
  }

  method SendError(s: Socket, instruction: Int32, code: Int32, info: seq<Byte>) returns (rc: int)
    modifies s`outgoing
    ensures old(s.outgoing) <= s.outgoing <= old(s.outgoing) + Encode(Message(instruction, ErrorBody(code, info)))
    ensures rc == OK ==> s.outgoing == old(s.outgoing) + Encode(Message(instruction, ErrorBody(code, info)))
  {
    var body := new Byte[BUF](_ => 0);
    var length := MakeErrorBody(code, info, body);
    rc := SendMsg(s, Message(instruction, body[..length]));
  }

  /** The last error the client knows of. */
  datatype ServerError = ServerError(code: Int32, text: seq<Byte>)

  /** setServerErrorMsg: an empty message changes nothing, and an empty text leaves the text
      of the error before. */
  function ErrorTaken(was: ServerError, body: seq<Byte>): (e: ServerError)
    requires body != [] ==> |body| >= 9 && Get32(body[5..9]) <= |body| - 9
  {
    if body == [] then was
    else
      var code, length := Get32(body[..4]), Get32(body[5..9]);
      if length <= 0 then was.(code := code) else ServerError(code, body[9..9 + length])
  }

  /** The client is shown the code and as much of the text as fits, all of it if it fits;
      but an error without a text is shown with the text of the one before. */
  lemma ErrorRoundTrip(was: ServerError, code: Int32, info: seq<Byte>)
    ensures var b := ErrorBody(code, info);
      && Get32(b[5..9]) == |b| - 9
      && ErrorTaken(was, b) == ServerError(code, if info == [] then was.text else Shown(info))
      && Shown(info)[..if |info| <= BUF - 9 then |info| else BUF - 12] <= info
  {
    var b, text := ErrorBody(code, info), Shown(info);
    assert b[..4] == Put32(code) && b[5..9] == Put32(|text|) && b[9..] == text;
    Get32Put32(code);
    Get32Put32(|text|);
    assert |info| > BUF - 9 ==> text[..BUF - 12] == info[..BUF - 12];
  }
}
