/**
 The order of requests on a backup connection, for clients that send anything at any
 time and storage managers that do anything: what the governor accepts on one connection
 is start requests, one archive request, next-file requests, and the end request.
 */
module HotBackupOrder {
  import opened HotBackup
  import opened HotBackupInvariant
  import opened HotBackupLoss
  import opened HotBackupTheorems

  datatype Event =
    | Opened(sock: Sock)
    | Message(sock: Sock, req: Request)
    | Failure(sock: Sock)
    | Meanwhile(sms: map<Db, Sm>)

  /** words: the requests accepted so far on each open connection. closed: the words of the
      connections that ended regularly. */
  datatype Trace = Trace(gov: Gov, served: Served, words: map<Sock, seq<Request>>, closed: seq<seq<Request>>)

  predicate Happens(t: Trace, e: Event) {
    match e
    case Opened(sock) => sock !in t.gov.clients
    case Message(sock, _) => sock in t.gov.clients && sock in t.words
    case Failure(sock) => sock in t.gov.clients && Lost(t.gov, t.served, sock).Some?
    case Meanwhile(_) => true
  }

  function Next(t: Trace, e: Event): Trace
    requires Happens(t, e)
  {
    match e
    case Opened(sock) =>
      t.(gov := t.gov.(clients := t.gov.clients[sock := Info(Starting, "", [])]), words := t.words[sock := []])
    case Message(sock, req) =>
      var (g, r) := Serve(t.gov, sock, req);
      var w := t.words[sock] + [req];
      if sock in g.clients then t.(gov := g, served := At(sock), words := t.words[sock := w])
      else Trace(g, Gone, t.words - {sock}, if r == Ended then t.closed + [w] else t.closed)
    case Failure(sock) =>
      t.(gov := Lost(t.gov, t.served, sock).value, words := t.words - {sock},
         served := if t.served == At(sock) then Gone else t.served)
    case Meanwhile(sms) => t.(gov := t.gov.(sms := sms))
  }

  // The language

  /** One or more start requests. */
  predicate Starts(w: seq<Request>) {
    w != [] && forall i :: 0 <= i < |w| ==> w[i].Start?
  }

  /** Start requests, the archive request, and any number of next-file requests. */
  predicate Archived(w: seq<Request>, n: nat) {
    && 0 < n < |w| && Starts(w[..n]) && w[n - 1].incr != StopIncr && w[n] == Archive
    && forall i :: n < i < |w| ==> w[i] == NextFile
  }

  ghost predicate InOrder(w: seq<Request>, status: Status) {
    match status
    case Starting => w == []
    case Waiting => Starts(w)
    case Archiving => Starts(w) && w[|w| - 1].incr != StopIncr
    case Sending => exists n: nat :: Archived(w, n)
    case Ending => (Starts(w) && w[|w| - 1].incr == StopIncr) || exists n: nat :: Archived(w, n) && n + 1 < |w|
  }

  /** Start+ Archive NextFile+ End, or Start+ End for a series to be stopped. */
  ghost predicate Whole(w: seq<Request>) {
    w != [] && w[|w| - 1] == End && InOrder(w[..|w| - 1], Ending)
  }

  lemma ArchivedNow(w: seq<Request>)
    requires Starts(w) && w[|w| - 1].incr != StopIncr
    ensures Archived(w + [Archive], |w|)
  {
    assert (w + [Archive])[..|w|] == w;
  }

  lemma ArchivedOn(w: seq<Request>, n: nat)
    requires Archived(w, n)
    ensures Archived(w + [NextFile], n)
  {
    assert (w + [NextFile])[..n] == w[..n];
  }

  /** A request the governor accepts continues the word in order. */
  lemma Continues(g: Gov, sock: Sock, req: Request, w: seq<Request>)
    requires sock in g.clients && InOrder(w, g.clients[sock].status)
    ensures var (h, r) := Serve(g, sock, req);
      && (sock in h.clients ==> InOrder(w + [req], h.clients[sock].status))
      && (sock !in h.clients && r == Ended ==> Whole(w + [req]))
  {
    if req == Archive && g.clients[sock].status == Archiving {
      ArchivedNow(w);
    } else if req == NextFile && g.clients[sock].status == Sending {
      var n: nat :| Archived(w, n);
      ArchivedOn(w, n);
    } else if req == End && g.clients[sock].status == Ending {
      assert (w + [End])[..|w|] == w;
    }
  }

  /** A request leaves the other connections alone. */
  lemma OtherKept(g: Gov, sock: Sock, req: Request, k: Sock)
    requires sock in g.clients && k != sock
    ensures var h := Serve(g, sock, req).0;
      (k in h.clients <==> k in g.clients) && (k in g.clients ==> h.clients[k] == g.clients[k])
  {
  }

  ghost predicate Ordered(t: Trace) {
    && t.words.Keys == t.gov.clients.Keys
    && (forall k :: k in t.words && k in t.gov.clients ==> InOrder(t.words[k], t.gov.clients[k].status))
    && forall n :: 0 <= n < |t.closed| ==> Whole(t.closed[n])
  }

  lemma MessageOrdered(t: Trace, sock: Sock, req: Request)
    requires Ordered(t) && Happens(t, Message(sock, req))
    ensures Ordered(Next(t, Message(sock, req)))
  {
    var (g, r) := Serve(t.gov, sock, req);
    var u := Next(t, Message(sock, req));
    Continues(t.gov, sock, req, t.words[sock]);
    forall k | k != sock
      ensures (k in g.clients <==> k in t.gov.clients) && (k in t.gov.clients ==> g.clients[k] == t.gov.clients[k])
    {
      OtherKept(t.gov, sock, req, k);
    }
  }

  lemma NextOrdered(t: Trace, e: Event)
    requires Ordered(t) && Happens(t, e)
    ensures Ordered(Next(t, e))
  {
    if e.Message? {
      MessageOrdered(t, e.sock, e.req);
    }
  }

  ghost predicate Traces(t: Trace, events: seq<Event>, u: Trace)
    decreases |events|
  {
    if events == [] then u == t else Happens(t, events[0]) && Traces(Next(t, events[0]), events[1..], u)
  }

  lemma {:induction false} TracesOrdered(t: Trace, events: seq<Event>, u: Trace)
    requires Ordered(t) && Traces(t, events, u)
    ensures Ordered(u)
    decreases |events|
  {
    if events != [] {
      NextOrdered(t, events[0]);
      TracesOrdered(Next(t, events[0]), events[1..], u);
    }
  }

  /** Nobody connected. */
  function Quiet(sms: map<Db, Sm>): Trace {
    Trace(Gov(map[], sms), Nobody, map[], [])
  }

  /** In every history of the governor, the word accepted on an open connection is in order
      as far as its status says, and that of a connection ended regularly is whole. */
  lemma RequestOrder(sms: map<Db, Sm>, events: seq<Event>, u: Trace)
    requires Traces(Quiet(sms), events, u)
    ensures forall k :: k in u.gov.clients ==> k in u.words && InOrder(u.words[k], u.gov.clients[k].status)
    ensures forall n :: 0 <= n < |u.closed| ==> Whole(u.closed[n])
  {
    TracesOrdered(Quiet(sms), events, u);
  }

  /** A word in order is the beginning of a whole one. */
  lemma InOrderIsPrefix(w: seq<Request>, status: Status) returns (rest: seq<Request>)
    requires InOrder(w, status)
    ensures Whole(w + rest)
  {
    match status {
      case Starting =>
        rest := [Start(false, StopIncr, ""), End];
        assert (w + rest)[..|w + rest| - 1] == [Start(false, StopIncr, "")];
      case Waiting =>
        rest := [Start(false, StopIncr, ""), End];
        assert (w + rest)[..|w + rest| - 1] == w + [Start(false, StopIncr, "")];
      case Archiving =>
        rest := [Archive, NextFile, End];
        ArchivedNow(w);
        ArchivedOn(w + [Archive], |w|);
        assert (w + rest)[..|w + rest| - 1] == w + [Archive] + [NextFile];
      case Sending =>
        rest := [NextFile, End];
        var n: nat :| Archived(w, n);
        ArchivedOn(w, n);
        assert (w + rest)[..|w + rest| - 1] == w + [NextFile];
      case Ending =>
        rest := [End];
        assert (w + rest)[..|w + rest| - 1] == w;
    }
  }

  // The runs of the whole system are such histories

  /** What a step of the system is to the governor. */
  function EventOf(s: Sys, step: Step): Event
    requires Enabled(s, step)
  {
    match step
    case Connect(sock, _, _, _) => Opened(sock)
    case Ask(sock) => Message(sock, NextRequest(s.hbs[sock]))
    case Lose(sock) => Failure(sock)
    case _ => Meanwhile(Apply(s, step).gov.sms)
  }

  predicate Mirrors(t: Trace, s: Sys) {
    t.gov == s.gov && t.served == s.served && t.words.Keys == s.gov.clients.Keys
  }

  lemma StepMirrored(s: Sys, step: Step, t: Trace)
    requires Enabled(s, step) && Mirrors(t, s) && Ordered(t)
    ensures Happens(t, EventOf(s, step)) && Mirrors(Next(t, EventOf(s, step)), Apply(s, step))
  {
    NextOrdered(t, EventOf(s, step));
  }

  /** A run of the system is a history of the governor, so the requests on each of its
      connections come in order. */
  lemma {:induction false} RunMirrored(s: Sys, steps: seq<Step>, v: Sys, t: Trace) returns (events: seq<Event>, u: Trace)
    requires Run(s, steps, v) && Mirrors(t, s) && Ordered(t)
    ensures Traces(t, events, u) && |events| == |steps| && Mirrors(u, v) && Ordered(u)
    decreases |steps|
  {
    if steps == [] {
      events, u := [], t;
    } else {
      var e := EventOf(s, steps[0]);
      StepMirrored(s, steps[0], t);
      NextOrdered(t, e);
      var rest;
      rest, u := RunMirrored(Apply(s, steps[0]), steps[1..], v, Next(t, e));
      events := [e] + rest;
      assert events[1..] == rest;
    }
  }
}
