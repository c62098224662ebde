/**
 The script of statements the export utility writes and reads back: statements joined by
 a delimiter, a file read in portions into a doubling buffer, and the text split again.
 */
module ExportScript {
  import opened Sp

  const PORTION: int := 512
  const STR_BUF_INIT: int := 500
  const Q_BUF_INIT: int := 1
  const DELIMITER: seq<Byte> := [38, 10]

  type Text = seq<Byte>

  predicate DelimAt(t: Text, i: int) {
    0 <= i < |t| - 1 && t[i] == 38 && t[i + 1] == 10
  }

  predicate DelimFree(t: Text) {
    forall i :: 0 <= i < |t| ==> !DelimAt(t, i)
  }

  /** Where the first delimiter is, or the length if there is none. */
  function FirstDelim(t: Text): (n: nat)
    ensures n <= |t| && (n < |t| ==> DelimAt(t, n))
    ensures forall i :: 0 <= i < n ==> !DelimAt(t, i)
  {
    if |t| < 2 then |t|
    else if DelimAt(t, 0) then 0
    else
      var n := FirstDelim(t[1..]);
      assert forall i :: 1 <= i < n + 1 ==> (DelimAt(t, i) <==> DelimAt(t[1..], i - 1));
      n + 1
  }

  lemma FirstDelimIs(t: Text, n: nat)
    requires n < |t| && DelimAt(t, n) && forall i :: 0 <= i < n ==> !DelimAt(t, i)
    ensures FirstDelim(t) == n
  {
  }

  function Split(t: Text): (l: seq<Text>)
    ensures l != []
    decreases |t|
  {
    var n := FirstDelim(t);
    if n == |t| then [t] else [t[..n]] + Split(t[n + 2..])
  }

  function Join(l: seq<Text>): Text {
    if l == [] then [] else if |l| == 1 then l[0] else l[0] + DELIMITER + Join(l[1..])
  }

  /** Joining the pieces of any text gives the text. */
  lemma {:induction false} JoinSplit(t: Text)
    ensures Join(Split(t)) == t
    decreases |t|
  {
    var n := FirstDelim(t);
    if n < |t| {
      JoinSplit(t[n + 2..]);
      assert Split(t)[1..] == Split(t[n + 2..]);
      assert t == t[..n] + DELIMITER + t[n + 2..];
    }
  }

  /** The pieces never contain the delimiter. */
  lemma {:induction false} SplitPieces(t: Text, i: nat)
    requires i < |Split(t)|
    ensures DelimFree(Split(t)[i])
    decreases |t|
  {
    var n := FirstDelim(t);
    if n < |t| && i > 0 {
      SplitPieces(t[n + 2..], i - 1);
    } else if n < |t| {
      assert forall k :: 0 <= k < n ==> !DelimAt(t, k);
      assert forall k :: DelimAt(t[..n], k) ==> DelimAt(t, k);
    }
  }

  lemma FirstOfJoin(s: Text, rest: Text)
    requires DelimFree(s)
    ensures FirstDelim(s + DELIMITER + rest) == |s|
  {
    var t := s + DELIMITER + rest;
    assert t[|s|] == 38 && t[|s| + 1] == 10;
    forall i | 0 <= i < |s| ensures !DelimAt(t, i) {
      assert !DelimAt(s, i);
    }
    FirstDelimIs(t, |s|);
  }

  /** A list of statements comes back exactly if there is one and none contains the
      delimiter. */
  lemma {:induction false} SplitJoin(l: seq<Text>)
    requires l != [] && forall i :: 0 <= i < |l| ==> DelimFree(l[i])
    ensures Split(Join(l)) == l
  {
    if |l| == 1 {
      assert FirstDelim(l[0]) == |l[0]|;
    } else {
      var rest := Join(l[1..]);
      FirstOfJoin(l[0], rest);
      var t := l[0] + DELIMITER + rest;
      assert t[..|l[0]|] == l[0] && t[|l[0]| + 2..] == rest;
      SplitJoin(l[1..]);
    }
  }

  lemma RoundTripIff(l: seq<Text>)
    ensures Split(Join(l)) == l <==> l != [] && forall i :: 0 <= i < |l| ==> DelimFree(l[i])
  {
    if l != [] && forall i :: 0 <= i < |l| ==> DelimFree(l[i]) {
      SplitJoin(l);
    } else if Split(Join(l)) == l {
      forall i | 0 <= i < |l| ensures DelimFree(l[i]) {
        SplitPieces(Join(l), i);
      }
    }
  }

  /** The C string that begins here: up to the first zero, or all of it. */
  function CStr(t: Text): (r: Text)
    ensures r <= t && ZeroFree(r) && (|r| < |t| ==> t[|r|] == 0)
  {
    if t == [] || t[0] == 0 then [] else [t[0]] + CStr(t[1..])
  }

  /** What reading a file in portions keeps of it: each portion up to its first zero. */
  function ReadText(file: Text): (t: Text)
    ensures |t| <= |file| && ZeroFree(t)
  {
    if |file| < PORTION then CStr(file) else CStr(file[..PORTION]) + ReadText(file[PORTION..])
  }

  /** A file comes in whole exactly if it has no zero byte. */
  lemma {:induction false} ReadTextIff(file: Text)
    ensures ReadText(file) == file <==> ZeroFree(file)
  {
    if ZeroFree(file) && |file| >= PORTION {
      ReadTextIff(file[PORTION..]);
      assert file == file[..PORTION] + file[PORTION..];
    }
  }

  method StrLen(data: Text) returns (n: nat)
    ensures n == |CStr(data)|
  {
    n := 0;
    while n < |data| && data[n] != 0
      invariant 0 <= n <= |data| && |CStr(data)| == n + |CStr(data[n..])|
    {
      assert data[n..][1..] == data[n + 1..];
      n := n + 1;
    }
  }

  method StrCpy(buf: array<Byte>, at: nat, text: Text)
    requires at + |text| < buf.Length
    modifies buf
    ensures buf[..at + |text|] == old(buf[..at]) + text && buf[at + |text|] == 0
  {
    forall k | 0 <= k < |text| {
      buf[at + k] := text[k];
    }
    buf[at + |text|] := 0;
  }

  /** str_buf_t: a zero-terminated string in a buffer that doubles when it is full. */
  class StrBuf {
    var buf: array<Byte>
    var dSize: nat

    ghost predicate Valid()
      reads this, buf
    {
      if buf.Length == 0 then dSize == 0 else dSize < buf.Length && buf[dSize] == 0
    }

    ghost function Contents(): Text
      requires Valid()
      reads this, buf
    {
      buf[..dSize]
    }

    constructor ()
      ensures Valid() && Contents() == [] && fresh(buf)
    {
      buf := new Byte[0](_ => 0);
      dSize := 0;
    }

    method Reserve(need: nat)
      requires Valid()
      modifies this`buf
      ensures buf.Length >= need && (buf == old(buf) || fresh(buf))
      ensures buf.Length >= old(buf.Length) && buf[..old(buf.Length)] == old(buf[..])
    {
      while buf.Length < need
        invariant buf == old(buf) || fresh(buf)
        invariant buf.Length >= old(buf.Length) && buf[..old(buf.Length)] == old(buf[..])
        decreases need - buf.Length
      {
        var bigger := new Byte[if buf.Length == 0 then STR_BUF_INIT else buf.Length * 2](_ => 0);
        forall k | 0 <= k < buf.Length {
          bigger[k] := buf[k];
        }
        assert bigger[..buf.Length] == buf[..];
        buf := bigger;
      }
    }

    method AddData(data: Text)
      requires Valid()
      modifies this, buf
      ensures Valid() && buf.Length > 0 && (buf == old(buf) || fresh(buf))
      ensures Contents() == old(Contents()) + CStr(data)
    {
      var n := StrLen(data);
      assert CStr(data) == data[..n];
      Reserve(dSize + n + 1);
      assert buf[..dSize] == buf[..old(buf.Length)][..dSize] == old(buf[..dSize]);
      StrCpy(buf, dSize, data[..n]);
      dSize := dSize + n;
    }
  }

  lemma Regroup(a: Text, b: Text, c: Text)
    ensures a + (b + c) == (a + b) + c
  {
  }

  lemma PortionStep(file: Text, pos: nat, n: nat)
    requires pos <= |file| && n == if |file| - pos >= PORTION then PORTION else |file| - pos
    ensures ReadText(file[pos..]) == CStr(file[pos..pos + n]) + if n < PORTION then [] else ReadText(file[pos + n..])
  {
    var w := file[pos..];
    assert w[..n] == file[pos..pos + n] && w[n..] == file[pos + n..];
    assert n < PORTION ==> w == w[..n];
  }

  /** The next portion, and whether it is the last. */
  method AddPortion(b: StrBuf, file: Text, pos: nat) returns (next: nat, last: bool)
    requires b.Valid() && pos <= |file|
    modifies b, b.buf
    ensures b.Valid() && b.buf.Length > 0 && (b.buf == old(b.buf) || fresh(b.buf))
    ensures pos <= next <= |file| && (last || pos < next)
    ensures b.Contents() + (if last then [] else ReadText(file[next..])) == old(b.Contents()) + ReadText(file[pos..])
  {
    var realRead := if |file| - pos >= PORTION then PORTION else |file| - pos;
    next := pos + realRead;
    last := realRead != PORTION;
    ghost var piece, rest := CStr(file[pos..next]), if last then [] else ReadText(file[next..]);
    PortionStep(file, pos, realRead);
    Regroup(b.Contents(), piece, rest);
    b.AddData(file[pos..next]);
  }

  /** Reads the file, whatever its length and contents. */
  method ReadQuery(file: Text) returns (b: StrBuf)
    ensures fresh(b) && fresh(b.buf) && b.Valid() && b.buf.Length > 0 && b.Contents() == ReadText(file)
  {
    b := new StrBuf();
    assert file[0..] == file;
    var pos, last := AddPortion(b, file, 0);
    while !last
      invariant 0 <= pos <= |file| && fresh(b) && fresh(b.buf) && b.Valid() && b.buf.Length > 0
      invariant b.Contents() + (if last then [] else ReadText(file[pos..])) == ReadText(file)
      decreases |file| - pos, !last
    {
      pos, last := AddPortion(b, file, pos);
    }
  }

  datatype Slot = Null | Str(text: Text)

  /** qbuf_t: an array of strings closed by a null pointer, doubling when it is full. */
  class QBuf {
    var buf: array<Slot>
    var dSize: nat

    ghost predicate Valid()
      reads this, buf
    {
      && (if buf.Length == 0 then dSize == 0 else dSize < buf.Length && buf[dSize] == Null)
      && forall i :: 0 <= i < dSize ==> buf[i].Str?
    }

    ghost function Contents(): (l: seq<Text>)
      requires Valid()
      reads this, buf
      ensures |l| == dSize && forall i :: 0 <= i < dSize ==> l[i] == buf[i].text
    {
      seq(dSize, i requires 0 <= i < dSize && Valid() reads this, buf => buf[i].text)
    }

    constructor ()
      ensures Valid() && Contents() == [] && fresh(buf)
    {
      buf := new Slot[0](_ => Null);
      dSize := 0;
    }

    method Reserve(need: nat)
      modifies this`buf
      ensures buf.Length >= need && (buf == old(buf) || fresh(buf))
      ensures buf.Length >= old(buf.Length) && forall i :: 0 <= i < old(buf.Length) ==> buf[i] == old(buf[i])
    {
      while buf.Length < need
        invariant buf == old(buf) || fresh(buf)
        invariant buf.Length >= old(buf.Length) && forall i :: 0 <= i < old(buf.Length) ==> buf[i] == old(buf[i])
        decreases need - buf.Length
      {
        var bigger := new Slot[if buf.Length == 0 then Q_BUF_INIT else buf.Length * 2](_ => Null);
        forall k | 0 <= k < buf.Length {
          bigger[k] := buf[k];
        }
        buf := bigger;
      }
    }

    method Add(q: Text)
      requires Valid()
      modifies this, buf
      ensures Valid() && (buf == old(buf) || fresh(buf))
      ensures Contents() == old(Contents()) + [q]
    {
      Reserve(dSize + 2);
      buf[dSize] := Str(q);
      dSize := dSize + 1;
      buf[dSize] := Null;
    }

    /** The script is the list joined. */
    method WriteScript() returns (file: Text)
      requires Valid()
      ensures file == Join(Contents())
    {
      file := [];
      if dSize == 0 {
        return;
      }
      var i := 0;
      while i < dSize - 1
        invariant 0 <= i <= dSize - 1 && file + Join(Contents()[i..]) == Join(Contents())
      {
        ghost var l := Contents()[i..];
        assert l[1..] == Contents()[i + 1..];
        assert file + (l[0] + DELIMITER + Join(l[1..])) == (file + l[0] + DELIMITER) + Join(l[1..]);
        file := file + buf[i].text + DELIMITER;
        i := i + 1;
      }
      assert Contents()[i..] == [buf[i].text];
      file := file + buf[dSize - 1].text;
    }
  }

  /** A zero-terminated text in an array. */
  ghost predicate Holds(a: array<Byte>, cur: nat, end: nat, text: Text)
    reads a
  {
    cur <= end < a.Length && a[cur..end] == text && a[end] == 0 && ZeroFree(text)
  }

  /** The first delimiter from cur on, or the terminating zero. */
  method StrStr(a: array<Byte>, cur: nat, ghost end: nat, ghost text: Text) returns (found: bool, p: nat)
    requires Holds(a, cur, end, text)
    ensures p == cur + FirstDelim(text) && (found <==> FirstDelim(text) < |text|)
  {
    p := cur;
    ghost var n := FirstDelim(text);
    assert forall k :: 0 <= k < |text| ==> a[cur + k] == text[k];
    while a[p] != 0
      invariant cur <= p <= end && p <= cur + n
      decreases end - p
    {
      assert a[p] == text[p - cur];
      if a[p] == 38 && a[p + 1] == 10 {
        assert DelimAt(text, p - cur);
        return true, p;
      }
      assert !DelimAt(text, p - cur);
      p := p + 1;
    }
    found := false;
  }

  /** Closes the piece before a delimiter, in place, and files it. */
  method CutPiece(query: array<Byte>, q: QBuf, cur: nat, p: nat, ghost end: nat, ghost rest: Text)
    requires Holds(query, cur, end, rest) && q.Valid()
    requires FirstDelim(rest) < |rest| && p == cur + FirstDelim(rest)
    modifies query, q, q.buf
    ensures q.Valid() && (q.buf == old(q.buf) || fresh(q.buf))
    ensures q.Contents() == old(q.Contents()) + [rest[..FirstDelim(rest)]]
    ensures Holds(query, p + 2, end, rest[FirstDelim(rest) + 2..])
  {
    query[p] := 0;
    assert query[cur..p] == rest[..FirstDelim(rest)];
    assert query[p + 2..end] == rest[FirstDelim(rest) + 2..];
    q.Add(query[cur..p]);
  }

  lemma SplitStep(l: seq<Text>, rest: Text)
    requires FirstDelim(rest) < |rest|
    ensures var n := FirstDelim(rest); l + Split(rest) == l + [rest[..n]] + Split(rest[n + 2..])
  {
  }

  method LastPiece(query: array<Byte>, q: QBuf, cur: nat, p: nat, ghost end: nat, ghost rest: Text)
    requires Holds(query, cur, end, rest) && q.Valid()
    requires FirstDelim(rest) == |rest| && p == cur + |rest|
    modifies q, q.buf
    ensures q.Valid() && q.Contents() == old(q.Contents()) + Split(rest)
  {
    q.Add(query[cur..p]);
  }

  /** Splits the text in place: each delimiter found is overwritten by a terminator. */
  method SplitQuery(query: array<Byte>, q: QBuf, ghost text: Text)
    requires Holds(query, 0, |text|, text) && q.Valid()
    modifies query, q, q.buf
    ensures q.Valid() && q.Contents() == old(q.Contents()) + Split(text)
  {
    var cur := 0;
    ghost var rest, was := text, q.Contents();
    var found, p := StrStr(query, cur, |text|, rest);
    while found
      invariant 0 <= cur <= |text| && Holds(query, cur, |text|, rest) && q.Valid() && (q.buf == old(q.buf) || fresh(q.buf))
      invariant p == cur + FirstDelim(rest) && (found <==> FirstDelim(rest) < |rest|)
      invariant q.Contents() + Split(rest) == was + Split(text)
      decreases |rest|
    {
      ghost var n := FirstDelim(rest);
      SplitStep(q.Contents(), rest);
      CutPiece(query, q, cur, p, |text|, rest);
      cur := p + 2;
      rest := rest[n + 2..];
      found, p := StrStr(query, cur, |text|, rest);
    }
    LastPiece(query, q, cur, p, |text|, rest);
  }

  lemma {:induction false} JoinZeroFree(l: seq<Text>)
    requires forall i :: 0 <= i < |l| ==> ZeroFree(l[i])
    ensures ZeroFree(Join(l))
  {
    if |l| > 1 {
      JoinZeroFree(l[1..]);
    }
  }

  /** A list of statements comes back from its script if and only if it is not empty and
      no statement contains the delimiter. */
  lemma ScriptIff(l: seq<Text>)
    requires forall i :: 0 <= i < |l| ==> ZeroFree(l[i])
    ensures Split(ReadText(Join(l))) == l <==> l != [] && forall i :: 0 <= i < |l| ==> DelimFree(l[i])
  {
    JoinZeroFree(l);
    ReadTextIff(Join(l));
    RoundTripIff(l);
  }

  method Reload(file: Text) returns (r: QBuf)
    ensures fresh(r) && r.Valid() && r.Contents() == Split(ReadText(file))
  {
    var b := ReadQuery(file);
    r := new QBuf();
    SplitQuery(b.buf, r, ReadText(file));
  }

  /** Written, read back and split. */
  method WriteReadSplit(q: QBuf) returns (r: QBuf)
    requires q.Valid()
    ensures r.Valid() && r.Contents() == Split(ReadText(Join(q.Contents())))
  {
    var file := q.WriteScript();
    r := Reload(file);
  }
}
