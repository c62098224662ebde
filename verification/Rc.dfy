/**
 The runtime configuration report: the governor's encoder (send_runtime_config) and the
 decoder of se_rc (parse_and_print_rc).
 */
module Rc {
  import opened Sp
  import opened GovTable

  const INVALID: Byte := 0
  const VALID: Byte := 1
  const OVERFLOW: Byte := 2

  datatype Entry = Entry(name: DbName, sessions: Int32)

  /** Number of sessions, name, zero. */
  function Field(e: Entry): (b: seq<Byte>)
    ensures |b| == |e.name| + 5
  {
    Put32(e.sessions) + e.name + [0]
  }

  function Fields(es: seq<Entry>): seq<Byte> {
    if es == [] then [] else Field(es[0]) + Fields(es[1..])
  }

  lemma {:induction false} FieldsAppend(es: seq<Entry>, e: Entry)
    ensures Fields(es + [e]) == Fields(es) + Field(e)
  {
    if es == [] {
      assert Fields([e]) == Field(e) + Fields([]);
    } else {
      assert (es + [e])[1..] == es[1..] + [e];
      FieldsAppend(es[1..], e);
    }
  }

  lemma {:induction false} FieldsGrow(es: seq<Entry>, i: nat)
    requires i <= |es|
    ensures |Fields(es[..i])| <= |Fields(es)|
  {
    if i == |es| {
      assert es[..i] == es;
    } else {
      FieldsGrow(es[..|es| - 1], i);
      assert es[..|es| - 1][..i] == es[..i];
      FieldsAppend(es[..|es| - 1], es[|es| - 1]);
      assert es == es[..|es| - 1] + [es[|es| - 1]];
    }
  }

  function Report(es: seq<Entry>): (b: seq<Byte>)
    requires |es| < 0x8000_0000
  {
    [VALID] + Put32(|es|) + Fields(es)
  }

  predicate FitsOne(es: seq<Entry>)
    requires |es| < 0x8000_0000
  {
    |Report(es)| <= BUF
  }

  /** The report with its first i entries written. */
  ghost function Partial(es: seq<Entry>, i: nat): (b: seq<Byte>)
    requires i <= |es| < 0x8000_0000
    ensures |b| >= 5
  {
    [VALID] + Put32(|es|) + Fields(es[..i])
  }

  lemma PartialStep(es: seq<Entry>, i: nat)
    requires i < |es| < 0x8000_0000
    ensures Partial(es, i + 1) == Partial(es, i) + Field(es[i]) && |Partial(es, i + 1)| <= |Report(es)|
  {
    FieldsAppend(es[..i], es[i]);
    assert es[..i + 1] == es[..i] + [es[i]];
    FieldsGrow(es, i + 1);
  }

  lemma PartialEnds(es: seq<Entry>)
    requires |es| < 0x8000_0000
    ensures Partial(es, 0) == [VALID] + Put32(|es|) && Partial(es, |es|) == Report(es)
  {
    assert es[..|es|] == es && es[..0] == [];
  }

  method Write(body: array<Byte>, at: nat, bytes: seq<Byte>)
    requires at + |bytes| <= body.Length
    modifies body
    ensures body[..at + |bytes|] == old(body[..at]) + bytes
  {
    forall k | 0 <= k < |bytes| {
      body[at + k] := bytes[k];
    }
  }

  /** The encoder: the whole report if it fits, and otherwise only the overflow mark. */
  method SendRuntimeConfig(es: seq<Entry>, body: array<Byte>) returns (len: nat)
    requires body.Length == BUF && |es| < 0x8000_0000
    modifies body
    ensures len <= BUF && body[..len] == if FitsOne(es) then Report(es) else [OVERFLOW]
  {
    PartialEnds(es);
    Write(body, 0, [VALID] + Put32(|es|));
    len := 5;
    var i := 0;
    while i < |es|
      invariant 0 <= i <= |es| && len == |Partial(es, i)| <= BUF && body[..len] == Partial(es, i)
    {
      PartialStep(es, i);
      if len + 4 + (|es[i].name| + 1) > BUF {
        body[0] := OVERFLOW;
        return 1;
      }
      Write(body, len, Field(es[i]));
      len := len + |Field(es[i])|;
      i := i + 1;
    }
  }

  /** What the decoder makes of a message; OverRun stands for reading past its buffer, which
      the source does not guard against. */
  datatype Parsed = Listed(rc: map<DbName, Int32>) | TooLarge | Inconsistent | Unreadable | OverRun

  predicate Distinct(es: seq<Entry>) {
    forall i, j :: 0 <= i < j < |es| ==> es[i].name != es[j].name
  }

  function RcMap(es: seq<Entry>): map<DbName, Int32> {
    if es == [] then map[]
    else
      var e := es[|es| - 1];
      RcMap(es[..|es| - 1])[e.name := e.sessions]
  }

  lemma {:induction false} RcMapKeys(es: seq<Entry>, name: DbName)
    requires forall i :: 0 <= i < |es| ==> es[i].name != name
    ensures name !in RcMap(es)
  {
    if es != [] {
      RcMapKeys(es[..|es| - 1], name);
    }
  }

  /** Where the string that begins here ends: its terminating zero, or the end of the buffer. */
  function ZeroFrom(body: seq<Byte>, at: nat): (z: nat)
    requires at <= |body|
    ensures at <= z <= |body| && (z < |body| ==> body[z] == 0)
    ensures forall k :: at <= k < z ==> body[k] != 0
    decreases |body| - at
  {
    if at == |body| || body[at] == 0 then at else ZeroFrom(body, at + 1)
  }

  datatype Cut = Cut(entry: Entry, next: nat) | NoEntry

  function EntryAt(body: seq<Byte>, at: nat): (c: Cut)
    ensures c.Cut? ==> at + 5 <= c.next <= |body|
  {
    if at + 4 > |body| then NoEntry
    else
      var z := ZeroFrom(body, at + 4);
      if z == |body| then NoEntry else Cut(Entry(body[at + 4..z], Get32(body[at..at + 4])), z + 1)
  }

  /** Enters a pair unless its name is there already. */
  function Entered(rc: map<DbName, Int32>, e: Entry): map<DbName, Int32> {
    if e.name in rc then rc else rc[e.name := e.sessions]
  }

  function DecodeFrom(body: seq<Byte>, at: nat, n: nat, rc: map<DbName, Int32>): Parsed
    decreases n
  {
    if n == 0 then Listed(rc)
    else
      match EntryAt(body, at)
      case NoEntry => OverRun
      case Cut(e, next) => DecodeFrom(body, next, n - 1, Entered(rc, e))
  }

  function Decode(body: seq<Byte>): Parsed
    requires |body| == BUF
  {
    if body[0] == INVALID then Inconsistent
    else if body[0] == OVERFLOW then TooLarge
    else if body[0] != VALID then Unreadable
    else DecodeFrom(body, 5, Unsigned(Get32(body[1..5])), map[])
  }

  method CString(body: seq<Byte>, at: nat) returns (z: nat)
    requires at <= |body|
    ensures z == ZeroFrom(body, at)
  {
    z := at;
    while z < |body| && body[z] != 0
      invariant at <= z <= |body| && ZeroFrom(body, z) == ZeroFrom(body, at)
    {
      z := z + 1;
    }
  }

  method ParseEntry(body: seq<Byte>, at: nat) returns (c: Cut)
    ensures c == EntryAt(body, at)
  {
    if at + 4 > |body| {
      return NoEntry;
    }
    var sessions := Get32(body[at..at + 4]);
    var z := CString(body, at + 4);
    if z == |body| {
      return NoEntry;
    }
    c := Cut(Entry(body[at + 4..z], sessions), z + 1);
  }

  /** The decoder, on any message. Its own guard, an offset past the buffer, is the
      invariant's other side: it could only trip after the read it was meant to prevent. */
  method ParseRc(body: seq<Byte>) returns (r: Parsed)
    requires |body| == BUF
    ensures r == Decode(body)
  {
    if body[0] == INVALID {
      return Inconsistent;
    } else if body[0] == OVERFLOW {
      return TooLarge;
    } else if body[0] != VALID {
      return Unreadable;
    }
    var n, offset: nat := Unsigned(Get32(body[1..5])), 5;
    var rc: map<DbName, Int32> := map[];
    var i := 0;
    while i < n
      invariant 0 <= i <= n && offset <= BUF && DecodeFrom(body, offset, n - i, rc) == Decode(body)
    {
      var c := ParseEntry(body, offset);
      if c.NoEntry? {
        return OverRun;
      }
      rc := Entered(rc, c.entry);
      offset, i := c.next, i + 1;
    }
    r := Listed(rc);
  }

  lemma ZeroFromIs(body: seq<Byte>, at: nat, z: nat)
    requires at <= z < |body| && body[z] == 0 && forall k :: at <= k < z ==> body[k] != 0
    ensures ZeroFrom(body, at) == z
  {
  }

  /** One entry off the front of a list of fields. */
  lemma FieldAt(w: seq<Byte>, e: Entry, rest: seq<Byte>)
    requires Field(e) + rest <= w
    ensures w[..4] == Put32(e.sessions) && w[4..4 + |e.name|] == e.name && w[4 + |e.name|] == 0
    ensures rest <= w[|Field(e)|..]
  {
    var f := Field(e);
    assert f[..4] == Put32(e.sessions) && f[4..4 + |e.name|] == e.name;
    assert w[..|f| + |rest|] == f + rest;
    assert w[..4] == (f + rest)[..4] && w[4..4 + |e.name|] == (f + rest)[4..4 + |e.name|];
    assert w[|f|..][..|rest|] == rest;
  }

  lemma EntryFound(body: seq<Byte>, at: nat, e: Entry, rest: seq<Byte>)
    requires at <= |body| && Field(e) + rest <= body[at..] && ZeroFree(e.name)
    ensures EntryAt(body, at) == Cut(e, at + |Field(e)|) && at + |Field(e)| <= |body| && rest <= body[at + |Field(e)|..]
  {
    var w, z := body[at..], at + 4 + |e.name|;
    FieldAt(w, e, rest);
    Get32Put32(e.sessions);
    assert body[at..at + 4] == w[..4] && body[at + 4..z] == w[4..4 + |e.name|];
    forall k | at + 4 <= k < z ensures body[k] != 0 {
      assert body[k] == e.name[k - at - 4];
    }
    ZeroFromIs(body, at + 4, z);
    assert w[|Field(e)|..] == body[at + |Field(e)|..];
  }

  lemma {:induction false} EnteredNext(es: seq<Entry>, i: nat)
    requires i < |es| && Distinct(es)
    ensures Entered(RcMap(es[..i]), es[i]) == RcMap(es[..i + 1])
  {
    RcMapKeys(es[..i], es[i].name);
    assert es[..i + 1][..i] == es[..i];
  }

  lemma {:induction false} EntryNext(body: seq<Byte>, at: nat, es: seq<Entry>, i: nat) returns (next: nat)
    requires at <= |body| && i < |es| && Fields(es[i..]) <= body[at..] && ZeroFree(es[i].name)
    ensures EntryAt(body, at) == Cut(es[i], next) && next <= |body| && Fields(es[i + 1..]) <= body[next..]
  {
    assert es[i..][1..] == es[i + 1..];
    EntryFound(body, at, es[i], Fields(es[i + 1..]));
    next := at + |Field(es[i])|;
  }

  lemma DecodeNext(body: seq<Byte>, at: nat, n: nat, rc: map<DbName, Int32>, e: Entry, next: nat)
    requires n > 0 && EntryAt(body, at) == Cut(e, next)
    ensures DecodeFrom(body, at, n, rc) == DecodeFrom(body, next, n - 1, Entered(rc, e))
  {
  }

  lemma {:induction false} DecodeFields(body: seq<Byte>, at: nat, es: seq<Entry>, i: nat, rc: map<DbName, Int32>)
    requires at <= |body| && i <= |es| && Fields(es[i..]) <= body[at..] && rc == RcMap(es[..i])
    requires Distinct(es) && forall k :: 0 <= k < |es| ==> ZeroFree(es[k].name)
    ensures DecodeFrom(body, at, |es| - i, rc) == Listed(RcMap(es))
    decreases |es| - i
  {
    if i == |es| {
      assert es[..i] == es;
    } else {
      var next := EntryNext(body, at, es, i);
      EnteredNext(es, i);
      DecodeNext(body, at, |es| - i, rc, es[i], next);
      DecodeFields(body, next, es, i + 1, Entered(rc, es[i]));
    }
  }

  /** The decoder gives back exactly the report the governor wrote, or that it was too
      large; on such a message it never reads past the buffer. */
  lemma {:induction false} DecodeReport(body: seq<Byte>, es: seq<Entry>)
    requires |body| == BUF && |es| < 0x8000_0000
    requires Distinct(es) && forall i :: 0 <= i < |es| ==> ZeroFree(es[i].name)
    requires (if FitsOne(es) then Report(es) else [OVERFLOW]) <= body
    ensures Decode(body) == if FitsOne(es) then Listed(RcMap(es)) else TooLarge
  {
    if FitsOne(es) {
      ReportHead(body, es);
      assert es[0..] == es && es[..0] == [];
      DecodeFields(body, 5, es, 0, map[]);
    }
  }

  lemma HeadAt(body: seq<Byte>, p: seq<Byte>, f: seq<Byte>)
    requires |p| == 4 && [VALID] + p + f <= body
    ensures body[0] == VALID && body[1..5] == p && f <= body[5..]
  {
    var w := [VALID] + p + f;
    assert w[1..5] == p && w[5..] == f;
    assert body[..|w|] == w;
    assert body[..|w|][1..5] == body[1..5];
    assert body[5..][..|f|] == body[..|w|][5..];
  }

  lemma ReportHead(body: seq<Byte>, es: seq<Entry>)
    requires |es| < 0x8000_0000 && Report(es) <= body
    ensures |body| >= 5 && body[0] == VALID && Get32(body[1..5]) == |es| && Fields(es) <= body[5..]
  {
    HeadAt(body, Put32(|es|), Fields(es));
    Get32Put32(|es|);
  }

  /** The entries of a runtime configuration, the databases listed in some order. */
  function Entries(names: seq<DbName>, rc: map<DbName, Int32>): (es: seq<Entry>)
    requires forall i :: 0 <= i < |names| ==> names[i] in rc
    ensures |es| == |names| && forall i :: 0 <= i < |es| ==> es[i] == Entry(names[i], rc[names[i]])
  {
    seq(|names|, i requires 0 <= i < |names| => Entry(names[i], rc[names[i]]))
  }

  /** Listing a runtime configuration loses nothing. */
  lemma {:induction false} EntriesMap(names: seq<DbName>, rc: map<DbName, Int32>)
    requires forall i :: 0 <= i < |names| ==> names[i] in rc
    ensures RcMap(Entries(names, rc)) == map name | name in names :: rc[name]
  {
    if names != [] {
      var front := names[..|names| - 1];
      EntriesMap(front, rc);
      assert Entries(names, rc)[..|names| - 1] == Entries(front, rc);
      assert forall name :: name in names <==> name in front || name == names[|names| - 1];
    }
  }

  // From the table to the screen

  lemma SubsetSize(a: set<int>, b: set<int>)
    requires a <= b
    ensures |a| <= |b|
  {
    assert b == a + (b - a);
  }

  lemma CountFits(table: InfoTable, db: DbName)
    requires table.Valid()
    ensures |SessionsOn(table.sessions, db)| <= MAX_SESSIONS
  {
    FreeAndLive(table.ids, table.sessions.Keys, MAX_SESSIONS);
    SubsetSize(SessionsOn(table.sessions, db), table.sessions.Keys);
  }

  /** The names of the databases, each once. */
  method Names(databases: map<DbName, int>) returns (names: seq<DbName>)
    ensures |names| == |databases| && forall i, j :: 0 <= i < j < |names| ==> names[i] != names[j]
    ensures forall db :: db in names <==> db in databases
  {
    names := [];
    var left := databases.Keys;
    assert |left| == |databases|;
    while left != {}
      invariant left <= databases.Keys && |names| + |left| == |databases|
      invariant forall i, j :: 0 <= i < j < |names| ==> names[i] != names[j]
      invariant forall db :: db in names <==> db in databases && db !in left
      decreases |left|
    {
      var db :| db in left;
      names, left := names + [db], left - {db};
    }
  }

  lemma Counted(table: InfoTable, rc: map<DbName, nat>)
    requires table.Valid() && forall db :: db in rc ==> rc[db] == |SessionsOn(table.sessions, db)|
    ensures forall db :: db in rc ==> rc[db] <= MAX_SESSIONS
  {
    forall db | db in rc ensures rc[db] <= MAX_SESSIONS {
      CountFits(table, db);
    }
  }

  /** A report written and read. */
  method Carried(names: seq<DbName>, rc: map<DbName, Int32>) returns (r: Parsed)
    requires |names| < 0x8000_0000 && forall i, j :: 0 <= i < j < |names| ==> names[i] != names[j]
    requires forall db :: db in names <==> db in rc
    requires forall db :: db in rc ==> ZeroFree(db)
    ensures r == if FitsOne(Entries(names, rc)) then Listed(rc) else TooLarge
  {
    var body := new Byte[BUF](_ => 0);
    var es := Entries(names, rc);
    var len := SendRuntimeConfig(es, body);
    assert body[..len] <= body[..];
    var message := body[..];
    Read(message, names, rc);
    r := ParseRc(message);
  }

  lemma {:induction false} Read(message: seq<Byte>, names: seq<DbName>, rc: map<DbName, Int32>)
    requires |message| == BUF && |names| < 0x8000_0000
    requires forall i, j :: 0 <= i < j < |names| ==> names[i] != names[j]
    requires forall db :: db in names <==> db in rc
    requires forall db :: db in rc ==> ZeroFree(db)
    requires (if FitsOne(Entries(names, rc)) then Report(Entries(names, rc)) else [OVERFLOW]) <= message
    ensures Decode(message) == if FitsOne(Entries(names, rc)) then Listed(rc) else TooLarge
  {
    EntriesMap(names, rc);
    assert (map name | name in names :: rc[name]) == rc;
    DecodeReport(message, Entries(names, rc));
  }

  /** get_rc, send_runtime_config and the decoder in a row: the report shown is the
      governor's table, every database with its number of sessions, unless it is too
      large for one message. */
  method Shown(table: InfoTable) returns (names: seq<DbName>, ghost counts: map<DbName, Int32>, r: Parsed)
    requires table.Valid() && |table.databases| < 0x8000_0000
    requires forall db :: db in table.databases ==> ZeroFree(db)
    ensures |names| == |table.databases| && forall db :: db in names <==> db in table.databases
    ensures counts.Keys == table.databases.Keys && forall db :: db in counts ==> counts[db] == |SessionsOn(table.sessions, db)|
    ensures r == if FitsOne(Entries(names, counts)) then Listed(counts) else TooLarge
  {
    var code, rc := table.GetRc();
    Counted(table, rc);
    var found: map<DbName, Int32> := map db | db in rc :: rc[db];
    names := Names(table.databases);
    r := Carried(names, found);
    counts := found;
  }
}
