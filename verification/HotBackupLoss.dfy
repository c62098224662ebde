/**
 Losing a backup client. The governor acts on the status and the database of the
 connection it served last, which need not be the one that was lost.
 */
module HotBackupLoss {
  import opened HotBackup
  import opened HotBackupInvariant

  /** The backup has its go-ahead. */
  predicate Past(status: Status) {
    status.Archiving? || status.Sending? || status.Ending?
  }

  /** The loss does no damage: the lost client was the one served last and was not waiting,
      or it had not begun and the one served last has no go-ahead. */
  predicate Harmless(s: Sys, sock: Sock)
    requires Enabled(s, Lose(sock))
  {
    var own, k := s.gov.clients[sock].status, s.served.sock;
    if k == sock then own != Waiting else own == Starting && !Past(s.gov.clients[k].status)
  }

  lemma SameSm(g: Gov, db: Db)
    requires db in g.sms && !g.sms[db].inProcess
    ensures g.sms[db := AbandonSm(g.sms[db])] == g.sms
  {
  }

  lemma HarmlessKeeps(s: Sys, sock: Sock)
    requires Inv(s) && Enabled(s, Lose(sock)) && Harmless(s, sock)
    ensures Inv(Apply(s, Lose(sock)))
  {
    var k := s.served.sock;
    var i := s.gov.clients[k];
    if s.gov.clients[sock].status == Starting {
      if i.status != Starting {
        SoleBusy(s, k);
        SameSm(s.gov, i.db);
      }
      EraseFresh(s.gov, s.hbs, sock);
    } else {
      SoleBusy(s, sock);
      RemoveConn(s.gov, s.hbs, sock, i.db, AbandonSm(s.gov.sms[i.db]));
    }
  }

  /** After the loss, what the storage managers look like. */
  lemma LossEffect(s: Sys, sock: Sock, d: Db)
    requires Inv(s) && Enabled(s, Lose(sock)) && d in s.gov.sms
    ensures var g := Apply(s, Lose(sock)).gov; var i := s.gov.clients[s.served.sock];
      && d in g.sms
      && g.sms[d] == (if i.status != Starting && i.db == d then AbandonSm(s.gov.sms[d]) else s.gov.sms[d])
  {
  }

  /** A lost client whose storage manager is not told leaves it as it was. */
  lemma OrphanBreaks(s: Sys, sock: Sock)
    requires Inv(s) && Enabled(s, Lose(sock)) && s.gov.clients[sock].status != Starting && !Harmless(s, sock)
    ensures !Sms(Apply(s, Lose(sock)).gov)
  {
    SoleBusy(s, sock);
    var db, t := s.gov.clients[sock].db, Apply(s, Lose(sock));
    LossEffect(s, sock, db);
    if s.gov.clients[s.served.sock].status != Starting && s.gov.clients[s.served.sock].db == db {
      assert Busy(s.gov, s.served.sock, db);
    }
    forall k ensures !Busy(t.gov, k, db) {
      assert Busy(t.gov, k, db) ==> Busy(s.gov, k, db);
    }
  }

  /** A backup under way whose storage manager is told of the loss of another client. */
  lemma VictimBreaks(s: Sys, sock: Sock)
    requires Inv(s) && Enabled(s, Lose(sock)) && s.served.sock != sock && Past(s.gov.clients[s.served.sock].status)
    ensures !Conns(Apply(s, Lose(sock)).gov, Apply(s, Lose(sock)).hbs)
  {
    var k, t := s.served.sock, Apply(s, Lose(sock));
    SoleBusy(s, k);
    LossEffect(s, sock, s.gov.clients[k].db);
    assert !ConnAt(t.gov, t.hbs, k);
  }

  /** The invariant survives a loss exactly if it is harmless. */
  lemma LossIff(s: Sys, sock: Sock)
    requires Inv(s) && Enabled(s, Lose(sock))
    ensures Inv(Apply(s, Lose(sock))) <==> Harmless(s, sock)
  {
    if Harmless(s, sock) {
      HarmlessKeeps(s, sock);
    } else if s.served.sock != sock && Past(s.gov.clients[s.served.sock].status) {
      VictimBreaks(s, sock);
    } else {
      OrphanBreaks(s, sock);
    }
  }
}
