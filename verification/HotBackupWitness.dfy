/** Runs in which a lost backup client does damage, step by step. */
module HotBackupWitness {
  import opened HotBackup
  import opened HotBackupInvariant
  import opened HotBackupLoss
  import opened HotBackupTheorems

  /** A storage manager at rest with one log file. */
  const IDLE := Sm(false, false, true, false, Log(1, 1, false, 0, None, NoneIncr))
  /** The same, a plain backup having its go-ahead. */
  const GOING := Sm(false, true, false, false, Log(1, 1, false, 0, None, NoneIncr))
  /** The same, a backup waiting for the checkpoint it asked for. */
  const HELD := Sm(false, false, false, true, Log(1, 1, false, 0, None, NoneIncr))

  const FRESH := Info(Starting, "", [])

  function Rest(): Sys {
    Sys(Gov(map[], map["a" := IDLE, "b" := IDLE]), Nobody, map[], [])
  }

  lemma RestInit()
    ensures Init(Rest())
  {
  }

  lemma RunStep(s: Sys, step: Step, u: Sys, steps: seq<Step>, t: Sys)
    requires Enabled(s, step) && !step.Lose? && Apply(s, step) == u && Run(u, steps, t)
    ensures Run(s, [step] + steps, t)
  {
    assert ([step] + steps)[1..] == steps;
  }

  /** Two clients are connected, on a and on b. */
  function Both(): Sys {
    Sys(Gov(map[1 := FRESH, 2 := FRESH], map["a" := IDLE, "b" := IDLE]), Nobody,
        map[1 := Client("a", NoneIncr, false, ToStart, []), 2 := Client("b", NoneIncr, false, ToStart, [])], [])
  }

  /** The first has its go-ahead. */
  function OneGoing(): Sys {
    Sys(Gov(map[1 := Info(Archiving, "a", []), 2 := FRESH], map["a" := GOING, "b" := IDLE]), At(1),
        map[1 := Client("a", NoneIncr, false, ToArchive, [Data]), 2 := Client("b", NoneIncr, false, ToStart, [])], [])
  }

  /** Both have, the second served last. */
  function BothGoing(): Sys {
    Sys(Gov(map[1 := Info(Archiving, "a", []), 2 := Info(Archiving, "b", [])], map["a" := GOING, "b" := GOING]), At(2),
        map[1 := Client("a", NoneIncr, false, ToArchive, [Data]), 2 := Client("b", NoneIncr, false, ToArchive, [Data])], [])
  }

  lemma FirstGoes()
    ensures Enabled(Both(), Ask(1)) && Apply(Both(), Ask(1)) == OneGoing()
  {
    var g := Both().gov;
    assert !Taken(g, "a");
    assert Begin(g, 1, "a", [], false, NoneIncr) ==
      (Gov(g.clients[1 := Info(Archiving, "a", [])], g.sms["a" := GOING]), Cont(Some(Data)));
    assert OneGoing().gov.clients == g.clients[1 := Info(Archiving, "a", [])];
    assert OneGoing().gov.sms == g.sms["a" := GOING];
    assert Serve(g, 1, Start(false, NoneIncr, "a")) == (OneGoing().gov, Cont(Some(Data)));
    assert [] + [Data] == [Data];
    assert OneGoing().hbs == Both().hbs[1 := Client("a", NoneIncr, false, ToArchive, [Data])];
  }

  lemma SecondGoes()
    ensures Enabled(OneGoing(), Ask(2)) && Apply(OneGoing(), Ask(2)) == BothGoing()
  {
    var g := OneGoing().gov;
    assert !Taken(g, "b");
    assert Begin(g, 2, "b", [], false, NoneIncr) ==
      (Gov(g.clients[2 := Info(Archiving, "b", [])], g.sms["b" := GOING]), Cont(Some(Data)));
    assert BothGoing().gov.clients == g.clients[2 := Info(Archiving, "b", [])];
    assert BothGoing().gov.sms == g.sms["b" := GOING];
    assert Serve(g, 2, Start(false, NoneIncr, "b")) == (BothGoing().gov, Cont(Some(Data)));
    assert [] + [Data] == [Data];
    assert BothGoing().hbs == OneGoing().hbs[2 := Client("b", NoneIncr, false, ToArchive, [Data])];
  }

  function ConnectA(incr: Incr, checkp: bool): Step {
    Connect(1, "a", incr, checkp)
  }

  function ConnectedA(checkp: bool): Sys {
    Sys(Gov(map[1 := FRESH], map["a" := IDLE, "b" := IDLE]), Nobody,
        map[1 := Client("a", NoneIncr, checkp, ToStart, [])], [])
  }

  lemma Connects()
    ensures Enabled(Rest(), ConnectA(NoneIncr, false)) && Apply(Rest(), ConnectA(NoneIncr, false)) == ConnectedA(false)
    ensures Enabled(Rest(), ConnectA(NoneIncr, true)) && Apply(Rest(), ConnectA(NoneIncr, true)) == ConnectedA(true)
    ensures Enabled(ConnectedA(false), Connect(2, "b", NoneIncr, false))
    ensures Apply(ConnectedA(false), Connect(2, "b", NoneIncr, false)) == Both()
  {
  }

  const TWO_STARTS :=
    [Connect(1, "a", NoneIncr, false)] + ([Connect(2, "b", NoneIncr, false)] + ([Ask(1)] + ([Ask(2)] + [])))

  lemma BothReached()
    ensures Run(Rest(), TWO_STARTS, BothGoing())
  {
    Connects();
    FirstGoes();
    SecondGoes();
    RunStep(OneGoing(), Ask(2), BothGoing(), [], BothGoing());
    RunStep(Both(), Ask(1), OneGoing(), [Ask(2)] + [], BothGoing());
    RunStep(ConnectedA(false), Connect(2, "b", NoneIncr, false), Both(), [Ask(1)] + ([Ask(2)] + []), BothGoing());
    RunStep(Rest(), ConnectA(NoneIncr, false), ConnectedA(false),
            [Connect(2, "b", NoneIncr, false)] + ([Ask(1)] + ([Ask(2)] + [])), BothGoing());
  }

  /** Two clients have their go-aheads; the first is lost. Its own storage manager is left in
      backup mode with nobody to end it, and the other's backup is abandoned midway. */
  lemma OtherAbandoned()
    ensures Init(Rest()) && Run(Rest(), TWO_STARTS, BothGoing()) && Enabled(BothGoing(), Lose(1))
    ensures Apply(BothGoing(), Lose(1)).gov == Gov(map[2 := Info(Archiving, "b", [])], map["a" := GOING, "b" := IDLE])
  {
    RestInit();
    BothReached();
    var g := BothGoing().gov;
    assert AbandonSm(GOING) == IDLE;
    assert g.clients - {1} == map[2 := Info(Archiving, "b", [])];
    assert g.sms["b" := IDLE] == map["a" := GOING, "b" := IDLE];
  }

  function OneWaiting(): Sys {
    Sys(Gov(map[1 := Info(Waiting, "a", [])], map["a" := HELD, "b" := IDLE]), At(1),
        map[1 := Client("a", NoneIncr, true, ToRestart, [])], [])
  }

  /** A single client is lost while it waits for the checkpoint it asked for: checkpoints
      stay disabled on a database without any backup. */
  lemma LeftDisabled()
    ensures Init(Rest()) && Run(Rest(), [ConnectA(NoneIncr, true)] + ([Ask(1)] + []), OneWaiting())
    ensures Enabled(OneWaiting(), Lose(1))
    ensures Apply(OneWaiting(), Lose(1)).gov == Gov(map[], map["a" := HELD, "b" := IDLE])
  {
    RestInit();
    Connects();
    var g := ConnectedA(true).gov;
    assert !Taken(g, "a");
    assert Begin(g, 1, "a", [], true, NoneIncr) == (Gov(g.clients[1 := Info(Waiting, "a", [])], g.sms["a" := HELD]), Wait);
    assert OneWaiting().gov.clients == g.clients[1 := Info(Waiting, "a", [])];
    assert OneWaiting().gov.sms == g.sms["a" := HELD];
    assert Serve(g, 1, Start(true, NoneIncr, "a")) == (OneWaiting().gov, Wait);
    assert OneWaiting().hbs == ConnectedA(true).hbs[1 := Client("a", NoneIncr, true, ToRestart, [])];
    RunStep(ConnectedA(true), Ask(1), OneWaiting(), [], OneWaiting());
    RunStep(Rest(), ConnectA(NoneIncr, true), ConnectedA(true), [Ask(1)] + [], OneWaiting());
    var h := OneWaiting().gov;
    assert h.clients - {1} == map[];
    assert h.sms["a" := HELD] == h.sms;
  }

  /** Whenever a backup ends, the loss of any other client before the next request is
      undefined: the pointers refer to an erased record. */
  lemma UndefinedAfterEnd(s: Sys, steps: seq<Step>, t: Sys, k: Sock, sock: Sock)
    requires Init(s) && Run(s, steps, t) && Enabled(t, Ask(k)) && t.gov.clients[k].status == Ending
    requires Enabled(t, Ask(sock)) && sock != k
    ensures var u := Apply(t, Ask(k));
      sock in u.gov.clients && u.served == Gone && Lost(u.gov, u.served, sock) == None
  {
    Reachable(s, steps, t);
    SoleBusy(t, k);
  }
}
