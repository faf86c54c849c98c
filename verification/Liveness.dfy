/**
 No due mail starves behind others, and every delivery uses up budget: the attempts that
 unfinished mail has left.
 */
module Liveness {
  import opened Mails
  import opened QueueTable
  import opened Protocol
  import opened Safety
  import opened Timing
  import opened TickRefinement
  import opened Rounds

  // ----- a settled row -----

  /** A settled mail is sent, dead, or one attempt further and due only after its backoff. */
  lemma SettledRow(c: Config, clock: int, since: int, later: int, m: Mail, fate: Fate)
    requires ValidConfig(c) && RowOk(c, clock, m) && Claimable(m)
    requires fate.Settled? && InOrder(since, later, fate)
    ensures var row := FinalRow(c, m, fate);
            && row.id == m.id
            && (Terminal(row) || (row.status == Failed && row.attempts == m.attempts + 1 < c.maxAttempts
                                  && row.nextAttemptAt >= since + c.delays(row.attempts)))
  {
    assert (m.attempts + 1) % U32 == m.attempts + 1;
  }

  lemma RoundKeepsInv(c: Config, s: State, es: seq<Event>)
    requires ValidConfig(c) && Inv(c, s) && Round(c, s, es)
    ensures Inv(c, After(c, s, es)) && After(c, s, es).pc == Idle && s.clock <= After(c, s, es).clock
  {
    var _, _, _ := RoundEffect(c, s, es);
  }

  /** A fault-free round leaves in flight only rows that were so before, and for less than the lease. */
  lemma OrphansAgeOut(c: Config, s: State, es: seq<Event>, id: MailId)
    requires ValidConfig(c) && Inv(c, s) && Round(c, s, es)
    requires id in After(c, s, es).table && After(c, s, es).table[id].status == Sending
    ensures id in s.table && s.table[id] == After(c, s, es).table[id] && s.table[id].updatedAt >= s.clock - c.lease
  {
    var t0, batch, clock := RoundEffect(c, s, es);
    var s' := After(c, s, es);
    if id in t0 && Listed(batch, id) {
      var i :| 0 <= i < |batch| && batch[i].id == id;
      assert SettledBy(c, clock, batch[i], s');
      SettledRow(c, clock, clock, s'.clock, batch[i], s'.fates[id]);
    }
  }

  // ----- no starvation -----

  /** Unfinished rows that may be fetched no later than a mail due at `key`. */
  ghost function Ahead(t: Table, key: int): set<MailId> {
    set id | id in t && !Terminal(t[id]) && t[id].nextAttemptAt <= key
  }

  /** New mail during the round is stamped later than `key`. */
  ghost predicate StampedAfter(es: seq<Event>, key: int) {
    forall i :: 0 <= i < |es| && es[i].Enqueue? ==> es[i].stamp > key
  }

  lemma {:induction false} BatchSize(batch: seq<Mail>)
    requires DistinctIds(batch)
    ensures |BatchIds(batch)| == |batch|
    decreases batch
  {
    if batch == [] {
      assert BatchIds(batch) == {};
    } else {
      var n := |batch| - 1;
      var init := batch[..n];
      BatchSize(init);
      assert batch == init + [batch[n]];
      forall id ensures id in BatchIds(batch) <==> id in BatchIds(init) + {batch[n].id} {
        ListedExtends(init, batch[n], id);
      }
      assert BatchIds(batch) == BatchIds(init) + {batch[n].id};
    }
  }

  lemma AheadWithArrivals(c: Config, s: State, es: seq<Event>, t0: Table, clock: int, key: int)
    requires Gathered(c, s, es, t0, clock) && StampedAfter(es, key)
    ensures Ahead(t0, key) == Ahead(s.table, key)
  {
  }

  lemma AheadAfterService(c: Config, since: int, es: seq<Event>, t0: Table, batch: seq<Mail>, s': State, key: int)
    requires ValidConfig(c) && Served(c, since, es, t0, batch, s') && StampedAfter(es, key) && PositiveDelays(c)
    requires forall i :: 0 <= i < |batch| ==> Claimable(batch[i]) && RowOk(c, since, batch[i])
    requires key <= since
    ensures Ahead(s'.table, key) == Ahead(t0, key) - BatchIds(batch)
  {
    forall id ensures id in Ahead(s'.table, key) <==> id in Ahead(t0, key) - BatchIds(batch) {
      if id in t0 && Listed(batch, id) {
        var i :| 0 <= i < |batch| && batch[i].id == id;
        assert SettledBy(c, since, batch[i], s');
        SettledRow(c, since, since, s'.clock, batch[i], s'.fates[id]);
      }
    }
  }

  lemma BatchAhead(t0: Table, limit: nat, now: int, batch: seq<Mail>, id: MailId)
    requires IsFetch(t0, limit, now, batch) && id in t0 && Due(t0[id], now) && !Listed(batch, id)
    ensures |batch| == limit && |BatchIds(batch)| == limit && BatchIds(batch) <= Ahead(t0, t0[id].nextAttemptAt)
  {
    BatchSize(batch);
    forall b | b in BatchIds(batch) ensures b in Ahead(t0, t0[id].nextAttemptAt) {
      var i :| 0 <= i < |batch| && batch[i].id == b;
    }
  }

  lemma PassedOverByService(c: Config, s: State, es: seq<Event>, t0: Table, batch: seq<Mail>, clock: int, s': State,
                            id: MailId)
    requires ValidConfig(c) && PositiveDelays(c) && Gathered(c, s, es, t0, clock)
    requires IsFetch(t0, c.batchSize, s.clock, batch) && Served(c, clock, es, t0, batch, s')
    requires id in s.table && Due(s.table[id], s.clock) && StampedAfter(es, s.table[id].nextAttemptAt) && id !in s'.fates
    ensures var key := s.table[id].nextAttemptAt;
            && id in s'.table && s'.table[id] == s.table[id]
            && |Ahead(s'.table, key)| == |Ahead(s.table, key)| - c.batchSize
  {
    var key, served := s.table[id].nextAttemptAt, BatchIds(batch);
    assert t0[id] == s.table[id] && !Listed(batch, id);
    assert Ahead(t0, key) == Ahead(s.table, key) by { AheadWithArrivals(c, s, es, t0, clock, key); }
    assert Ahead(s'.table, key) == Ahead(t0, key) - served by { AheadAfterService(c, clock, es, t0, batch, s', key); }
    assert |served| == c.batchSize && served <= Ahead(t0, key) by { BatchAhead(t0, c.batchSize, s.clock, batch, id); }
  }

  /** A due mail passed over in a round sees exactly `batch_size` rows ahead of it go. */
  lemma PassedOver(c: Config, s: State, es: seq<Event>, id: MailId)
    requires ValidConfig(c) && PositiveDelays(c) && Inv(c, s) && Round(c, s, es)
    requires id in s.table && Due(s.table[id], s.clock) && StampedAfter(es, s.table[id].nextAttemptAt)
    requires id !in After(c, s, es).fates
    ensures var s', key := After(c, s, es), s.table[id].nextAttemptAt;
            && id in s'.table && s'.table[id] == s.table[id]
            && |Ahead(s'.table, key)| == |Ahead(s.table, key)| - c.batchSize
  {
    var t0, batch, clock := RoundEffect(c, s, es);
    PassedOverByService(c, s, es, t0, batch, clock, After(c, s, es), id);
  }

  ghost predicate IsRounds(c: Config, s: State, rounds: seq<seq<Event>>)
    decreases rounds
  {
    rounds == [] || (Round(c, s, rounds[0]) && IsRounds(c, After(c, s, rounds[0]), rounds[1..]))
  }

  /** No round claims the mail, and new mail is stamped later than it. */
  ghost predicate NeverServed(c: Config, s: State, rounds: seq<seq<Event>>, id: MailId, key: int)
    requires IsRounds(c, s, rounds)
    decreases rounds
  {
    rounds == [] ||
    (var s' := After(c, s, rounds[0]);
     id !in s'.fates && StampedAfter(rounds[0], key) && NeverServed(c, s', rounds[1..], id, key))
  }

  /**
   No starvation: a due mail can be passed over only as long as `batch_size` rows per round
   are ahead of it, so it is claimed within ceil(|Ahead| / batch_size) rounds.
   */
  lemma {:induction false} NoStarvation(c: Config, s: State, rounds: seq<seq<Event>>, id: MailId)
    requires ValidConfig(c) && PositiveDelays(c) && Inv(c, s) && IsRounds(c, s, rounds)
    requires id in s.table && Due(s.table[id], s.clock)
    requires NeverServed(c, s, rounds, id, s.table[id].nextAttemptAt)
    ensures |rounds| * c.batchSize < |Ahead(s.table, s.table[id].nextAttemptAt)|
    decreases rounds
  {
    if rounds == [] {
      assert id in Ahead(s.table, s.table[id].nextAttemptAt);
    } else {
      var s' := After(c, s, rounds[0]);
      PassedOver(c, s, rounds[0], id);
      RoundKeepsInv(c, s, rounds[0]);
      NoStarvation(c, s', rounds[1..], id);
      assert |rounds| * c.batchSize == |rounds[1..]| * c.batchSize + c.batchSize;
    }
  }

  // ----- budget -----

  /** Deliveries a mail may still cost. */
  function Weight(c: Config, m: Mail): nat {
    if Terminal(m) || m.attempts >= c.maxAttempts then 0 else c.maxAttempts - m.attempts
  }

  ghost function Pick(ids: set<MailId>): MailId
    requires ids != {}
  {
    var id :| id in ids; id
  }

  ghost function Budget(c: Config, t: Table, ids: set<MailId>): nat
    requires ids <= t.Keys
  {
    if ids == {} then 0 else Weight(c, t[Pick(ids)]) + Budget(c, t, ids - {Pick(ids)})
  }

  lemma {:induction false} BudgetWithout(c: Config, t: Table, ids: set<MailId>, id: MailId)
    requires ids <= t.Keys && id in ids
    ensures Budget(c, t, ids) == Weight(c, t[id]) + Budget(c, t, ids - {id})
    decreases ids
  {
    var p := Pick(ids);
    if p != id {
      BudgetWithout(c, t, ids - {p}, id);
      BudgetWithout(c, t, ids - {id}, p);
      assert ids - {p} - {id} == ids - {id} - {p};
    }
  }

  /** Rows that lose weight lower the budget one by one; no other row may gain. */
  lemma {:induction false} BudgetSpent(c: Config, t: Table, t': Table, ids: set<MailId>, spent: set<MailId>)
    requires ids <= t.Keys && ids <= t'.Keys && spent <= ids
    requires forall id :: id in ids ==> Weight(c, t'[id]) + (if id in spent then 1 else 0) <= Weight(c, t[id])
    ensures Budget(c, t', ids) + |spent| <= Budget(c, t, ids)
    decreases ids
  {
    if ids == {} {
      assert spent == {};
    } else {
      var p := Pick(ids);
      BudgetSpent(c, t, t', ids - {p}, spent - {p});
      if p in spent { assert spent == (spent - {p}) + {p}; } else { assert spent - {p} == spent; }
    }
  }

  /** Every new row adds at most `max_attempts`. */
  lemma {:induction false} BudgetGrown(c: Config, t: Table, ids: set<MailId>, more: set<MailId>)
    requires ids + more <= t.Keys && ids !! more
    ensures Budget(c, t, ids + more) <= Budget(c, t, ids) + c.maxAttempts * |more|
    decreases more
  {
    if more == {} {
      assert ids + more == ids;
    } else {
      var p := Pick(more);
      BudgetGrown(c, t, ids, more - {p});
      BudgetWithout(c, t, ids + more, p);
      assert ids + more - {p} == ids + (more - {p});
      assert |more| == |more - {p}| + 1;
      assert c.maxAttempts * |more| == c.maxAttempts * |more - {p}| + c.maxAttempts;
    }
  }

  lemma WeightsFall(c: Config, s: State, es: seq<Event>, t0: Table, batch: seq<Mail>, clock: int, s': State, id: MailId)
    requires ValidConfig(c) && Gathered(c, s, es, t0, clock) && IsFetch(t0, c.batchSize, s.clock, batch)
    requires Served(c, clock, es, t0, batch, s') && id in t0
    ensures Weight(c, s'.table[id]) + (if Listed(batch, id) then 1 else 0) <= Weight(c, t0[id])
  {
    if Listed(batch, id) {
      var i :| 0 <= i < |batch| && batch[i].id == id;
      assert SettledBy(c, clock, batch[i], s');
      SettledRow(c, clock, clock, s'.clock, batch[i], s'.fates[id]);
    }
  }

  /** Two stages, each paying so much per new id, pay so much per id new over both. */
  lemma TwoStages(each: nat, k0: set<MailId>, k1: set<MailId>, k2: set<MailId>, b0: int, b1: int, b2: int, paid: int)
    requires k0 <= k1 <= k2
    requires b1 <= b0 + each * |k1 - k0| && b2 + paid <= b1 + each * |k2 - k1|
    ensures b2 + paid <= b0 + each * |k2 - k0|
  {
    var x, y := |k1 - k0|, |k2 - k1|;
    assert k2 - k0 == (k1 - k0) + (k2 - k1);
    assert |k2 - k0| == x + y;
    assert each * (x + y) == each * x + each * y;
  }

  lemma BudgetOfArrivals(c: Config, t: Table, t': Table)
    requires t.Keys <= t'.Keys && forall id :: id in t ==> Kin(t[id], t'[id])
    ensures Budget(c, t', t'.Keys) <= Budget(c, t, t.Keys) + c.maxAttempts * |t'.Keys - t.Keys|
  {
    assert t'.Keys == t.Keys + (t'.Keys - t.Keys);
    BudgetGrown(c, t', t.Keys, t'.Keys - t.Keys);
    BudgetSame(c, t, t', t.Keys);
  }

  lemma BudgetOfService(c: Config, t: Table, t': Table, spent: set<MailId>)
    requires t.Keys <= t'.Keys && spent <= t.Keys
    requires forall id :: id in t ==> Weight(c, t'[id]) + (if id in spent then 1 else 0) <= Weight(c, t[id])
    ensures Budget(c, t', t'.Keys) + |spent| <= Budget(c, t, t.Keys) + c.maxAttempts * |t'.Keys - t.Keys|
  {
    assert t'.Keys == t.Keys + (t'.Keys - t.Keys);
    BudgetSpent(c, t, t', t.Keys, spent);
    BudgetGrown(c, t', t.Keys, t'.Keys - t.Keys);
  }

  lemma BudgetOverRound(c: Config, t: Table, t0: Table, t': Table, spent: set<MailId>)
    requires t.Keys <= t0.Keys <= t'.Keys && spent <= t0.Keys
    requires forall id :: id in t ==> Kin(t[id], t0[id])
    requires forall id :: id in t0 ==> Weight(c, t'[id]) + (if id in spent then 1 else 0) <= Weight(c, t0[id])
    ensures Budget(c, t', t'.Keys) + |spent| <= Budget(c, t, t.Keys) + c.maxAttempts * |t'.Keys - t.Keys|
  {
    BudgetOfArrivals(c, t, t0);
    BudgetOfService(c, t0, t', spent);
    TwoStages(c.maxAttempts, t.Keys, t0.Keys, t'.Keys, Budget(c, t, t.Keys),
              Budget(c, t0, t0.Keys), Budget(c, t', t'.Keys), |spent|);
  }

  /**
   A fault-free round lowers the remaining budget by at least the number of mails it
   processed; only new mail raises it, by at most `max_attempts` each.
   */
  lemma RoundSpends(c: Config, s: State, es: seq<Event>)
    requires ValidConfig(c) && Inv(c, s) && Round(c, s, es)
    ensures var s' := After(c, s, es);
            && s.table.Keys <= s'.table.Keys
            && Budget(c, s'.table, s'.table.Keys) + |s'.fates.Keys|
               <= Budget(c, s.table, s.table.Keys) + c.maxAttempts * |s'.table.Keys - s.table.Keys|
  {
    var t0, batch, clock := RoundEffect(c, s, es);
    var s' := After(c, s, es);
    ServiceSpends(c, s, es, t0, batch, clock, s');
  }

  lemma {:induction false} AllWeightsFall(c: Config, s: State, es: seq<Event>, t0: Table, batch: seq<Mail>, clock: int,
                                          s': State, spent: set<MailId>)
    requires ValidConfig(c) && Gathered(c, s, es, t0, clock) && IsFetch(t0, c.batchSize, s.clock, batch)
    requires Served(c, clock, es, t0, batch, s') && spent == BatchIds(batch)
    ensures s.table.Keys <= t0.Keys <= s'.table.Keys && spent <= t0.Keys && s'.fates.Keys == spent
    ensures forall id :: id in t0 ==> Weight(c, s'.table[id]) + (if id in spent then 1 else 0) <= Weight(c, t0[id])
  {
    forall id | id in t0
      ensures Weight(c, s'.table[id]) + (if id in spent then 1 else 0) <= Weight(c, t0[id])
    {
      WeightsFall(c, s, es, t0, batch, clock, s', id);
    }
  }

  lemma {:induction false} ServiceSpends(c: Config, s: State, es: seq<Event>, t0: Table, batch: seq<Mail>, clock: int, s': State)
    requires ValidConfig(c) && Gathered(c, s, es, t0, clock) && IsFetch(t0, c.batchSize, s.clock, batch)
    requires Served(c, clock, es, t0, batch, s')
    ensures s.table.Keys <= s'.table.Keys
    ensures Budget(c, s'.table, s'.table.Keys) + |s'.fates.Keys|
            <= Budget(c, s.table, s.table.Keys) + c.maxAttempts * |s'.table.Keys - s.table.Keys|
  {
    var spent := BatchIds(batch);
    AllWeightsFall(c, s, es, t0, batch, clock, s', spent);
    BudgetOverRound(c, s.table, t0, s'.table, spent);
  }

  lemma {:induction false} BudgetSame(c: Config, t: Table, t': Table, ids: set<MailId>)
    requires ids <= t.Keys && ids <= t'.Keys && forall id :: id in ids ==> Kin(t[id], t'[id])
    ensures Budget(c, t', ids) == Budget(c, t, ids)
    decreases ids
  {
    if ids != {} { BudgetSame(c, t, t', ids - {Pick(ids)}); }
  }

  ghost function AfterRounds(c: Config, s: State, rounds: seq<seq<Event>>): State
    requires IsRounds(c, s, rounds)
    decreases rounds
  {
    if rounds == [] then s else AfterRounds(c, After(c, s, rounds[0]), rounds[1..])
  }

  ghost function Processed(c: Config, s: State, rounds: seq<seq<Event>>): nat
    requires IsRounds(c, s, rounds)
    decreases rounds
  {
    if rounds == [] then 0
    else |After(c, s, rounds[0]).fates.Keys| + Processed(c, After(c, s, rounds[0]), rounds[1..])
  }

  /** Over any number of fault-free rounds, deliveries are paid for by budget: `max_attempts` per new mail. */
  lemma {:induction false} DeliveriesBounded(c: Config, s: State, rounds: seq<seq<Event>>)
    requires ValidConfig(c) && Inv(c, s) && IsRounds(c, s, rounds)
    ensures var s' := AfterRounds(c, s, rounds);
            && s.table.Keys <= s'.table.Keys
            && Budget(c, s'.table, s'.table.Keys) + Processed(c, s, rounds)
               <= Budget(c, s.table, s.table.Keys) + c.maxAttempts * |s'.table.Keys - s.table.Keys|
    decreases rounds
  {
    if rounds == [] {
      assert s.table.Keys - s.table.Keys == {};
    } else {
      var s1, s' := After(c, s, rounds[0]), AfterRounds(c, s, rounds);
      RoundSpends(c, s, rounds[0]);
      RoundKeepsInv(c, s, rounds[0]);
      DeliveriesBounded(c, s1, rounds[1..]);
      var p1, p2 := |s1.fates.Keys|, Processed(c, s1, rounds[1..]);
      TwoStages(c.maxAttempts, s.table.Keys, s1.table.Keys, s'.table.Keys, Budget(c, s.table, s.table.Keys),
                Budget(c, s1.table, s1.table.Keys) + p1, Budget(c, s'.table, s'.table.Keys), p1 + p2);
    }
  }
}
