/**
 Fault-free rounds of the dispatcher: a tick from start to end, with insertions and
 the clock running meanwhile, and what one round does to the table.
 */
module Rounds {
  import opened Mails
  import opened QueueTable
  import opened Protocol
  import opened Safety
  import opened Guarantees
  import opened TickRefinement

  predicate FaultFree(e: Event) {
    && e != Reclaim(false) && !e.FetchFailed? && !e.TaskLost? && !e.Crash?
    && (e.Claim? ==> e.reply == Granted)
  }

  /** One tick, from its start to its end; whatever follows before the next is only ingress and clock. */
  ghost predicate Round(c: Config, s: State, es: seq<Event>) {
    && es != [] && es[0] == TickStart
    && IsRun(c, s, es) && After(c, s, es).pc == Idle
    && forall i :: 1 <= i < |es| ==> WithinTick(es[i]) && FaultFree(es[i])
  }

  /** The row was put there by one of the events. */
  ghost predicate FromEvents(es: seq<Event>, m: Mail) {
    exists i :: 0 <= i < |es| && es[i].Enqueue? && m == FromNew(es[i].content, es[i].stamp, es[i].id)
  }

  ghost predicate AllFromEvents(es: seq<Event>, rows: Table) {
    forall id :: id in rows ==> FromEvents(es, rows[id])
  }

  lemma {:induction false} InsertedFromEvents(taken: set<MailId>, es: seq<Event>, whole: seq<Event>, from: nat)
    requires from <= |whole| && es == whole[from..]
    ensures AllFromEvents(whole, Inserted(taken, es))
    decreases es
  {
    if es != [] {
      assert es[0] == whole[from] && es[1..] == whole[from + 1..];
      if es[0].Enqueue? && es[0].id !in taken {
        var e, rows, later := es[0], Inserted(taken, es), Inserted(taken + {es[0].id}, es[1..]);
        assert rows == later[e.id := FromNew(e.content, e.stamp, e.id)];
        InsertedFromEvents(taken + {e.id}, es[1..], whole, from + 1);
        forall id | id in rows ensures FromEvents(whole, rows[id]) {
          if id == e.id {
            assert whole[from].Enqueue? && rows[id] == FromNew(whole[from].content, whole[from].stamp, whole[from].id);
          } else {
            assert id in later && rows[id] == later[id];
          }
        }
      } else {
        InsertedFromEvents(taken, es[1..], whole, from + 1);
      }
    }
  }

  // ----- every fetched mail is settled -----

  /** In a fault-free tick a claimed mail has been settled or is being pursued. */
  ghost predicate SettlingInv(s: State) {
    forall id :: id in s.fates ==> s.fates[id].Settled? || Pursued(s, id)
  }

  lemma SettlingStep(c: Config, s: State, e: Event)
    requires SettlingInv(s) && StepFacts(s, e) && s.nextHandle !in s.live && (InTick(s.pc) || s.pc == Idle)
    requires Enabled(c, s, e) && WithinTick(e) && FaultFree(e)
    ensures SettlingInv(Next(c, s, e))
  {
    var s' := Next(c, s, e);
    if e.Record? { RecordFinishes(c, s, e.handle); }
    forall id | id in s'.fates ensures s'.fates[id].Settled? || Pursued(s', id) {
      SettlingStepOne(c, s, e, id);
    }
  }

  lemma SettlingStepOne(c: Config, s: State, e: Event, id: MailId)
    requires id in s.fates ==> s.fates[id].Settled? || Pursued(s, id)
    requires StepFacts(s, e) && s.nextHandle !in s.live && (InTick(s.pc) || s.pc == Idle)
    requires Enabled(c, s, e) && WithinTick(e) && FaultFree(e) && id in Next(c, s, e).fates
    ensures Next(c, s, e).fates[id].Settled? || Pursued(Next(c, s, e), id)
  {
    var s' := Next(c, s, e);
    if id in s.fates && Pursued(s, id) {
      if e.Record? {
        RecordFinishes(c, s, e.handle);
        if s.live[e.handle].mail.id != id { PursuedElsewhere(s, s', e.handle, id); }
      } else if s.pc.Waiting? && s.pc.mail.id == id {
        if e.Spawn? { assert s'.live[s.nextHandle].mail.id == id; }
      } else {
        var h :| h in s.live && s.live[h].mail.id == id;
        assert h in s'.live && s'.live[h].mail.id == id;
      }
    }
  }

  lemma {:induction false} SettlingStretch(c: Config, s: State, es: seq<Event>)
    requires ValidConfig(c) && Inv(c, s) && SettlingInv(s) && (InTick(s.pc) || s.pc == Idle)
    requires IsRun(c, s, es) && forall i :: 0 <= i < |es| ==> WithinTick(es[i]) && FaultFree(es[i])
    ensures SettlingInv(After(c, s, es)) && Inv(c, After(c, s, es))
    decreases es
  {
    if es != [] {
      var e, s' := es[0], Next(c, s, es[0]);
      assert SettlingInv(s') && (InTick(s'.pc) || s'.pc == Idle) by {
        StepFactsHold(c, s, e);
        assert s.nextHandle !in s.live;
        SettlingStep(c, s, e);
      }
      StepKeepsInv(c, s, e);
      SettlingStretch(c, s', es[1..]);
    }
  }

  // ----- up to the fetch -----
  /** The same row, or one left in flight and put back to pending. */
  predicate Kin(m: Mail, m': Mail) {
    m' == m || (m.status == Sending && m' == Requeued(m, m'.updatedAt))
  }

  /** Rows stay, reclaimed at most, and what is new was inserted. */
  ghost predicate Gained(t: Table, t': Table, es: seq<Event>) {
    && t.Keys <= t'.Keys && (forall id :: id in t ==> Kin(t[id], t'[id]))
    && forall id :: id in t' && id !in t ==> FromEvents(es, t'[id])
  }

  ghost predicate NoneStale(t: Table, olderThan: int) {
    forall id :: id in t && t[id].status == Sending ==> t[id].updatedAt >= olderThan
  }

  /** `k` is the place of the fetch. */
  ghost predicate FetchAt(c: Config, s: State, es: seq<Event>, k: nat)
    requires IsRun(c, s, es)
  {
    && k < |es| && es[k].Fetch? && IsRun(c, s, es[..k])
    && var f := After(c, s, es[..k]);
       && (s.pc.Reclaiming? || s.pc.Fetching?) && f.pc == Fetching(s.pc.now)
       && Gained(s.table, f.table, es[..k]) && NoneStale(f.table, f.pc.now - c.lease)
  }

  lemma FetchHere(c: Config, s: State, es: seq<Event>)
    requires IsRun(c, s, es) && es != [] && es[0].Fetch? && s.pc.Fetching? && NoneStale(s.table, s.pc.now - c.lease)
    ensures FetchAt(c, s, es, 0)
  {
    assert es[..0] == [];
  }

  lemma GainedThen(t: Table, t1: Table, t2: Table, es: seq<Event>)
    requires es != [] && Gained(t, t1, [es[0]]) && Gained(t1, t2, es[1..])
    ensures Gained(t, t2, es)
  {
    forall id | id in t2 && id !in t ensures FromEvents(es, t2[id]) {
      if id in t1 {
        assert FromEvents([es[0]], t1[id]);
      } else {
        FromPart(es, es[1..], 1, t2[id]);
      }
    }
  }

  lemma FetchLater(c: Config, s: State, es: seq<Event>, k: nat)
    requires es != [] && IsRun(c, s, es) && FetchAt(c, Next(c, s, es[0]), es[1..], k)
    requires var s' := Next(c, s, es[0]);
             && (s.pc.Reclaiming? || s.pc.Fetching?) && (s'.pc.Reclaiming? || s'.pc.Fetching?)
             && s'.pc.now == s.pc.now && Gained(s.table, s'.table, [es[0]])
    ensures FetchAt(c, s, es, k + 1)
  {
    var part := es[..k + 1];
    assert part[0] == es[0] && part[1..] == es[1..][..k];
    GainedThen(s.table, Next(c, s, es[0]).table, After(c, s, part).table, part);
  }

  lemma BeforeFetchStep(c: Config, s: State, e: Event)
    requires s.live == map[] && (s.pc.Reclaiming? || s.pc.Fetching?)
    requires s.pc.Fetching? ==> NoneStale(s.table, s.pc.now - c.lease)
    requires Enabled(c, s, e) && WithinTick(e) && FaultFree(e) && !e.Fetch?
    ensures var s' := Next(c, s, e);
            && (s'.pc.Reclaiming? || s'.pc.Fetching?) && s'.pc.now == s.pc.now
            && Gained(s.table, s'.table, [e])
            && (s'.pc.Fetching? ==> NoneStale(s'.table, s'.pc.now - c.lease))
  {
    if e.Enqueue? && e.id !in s.table {
      assert [e][0] == e;
      assert FromEvents([e], FromNew(e.content, e.stamp, e.id));
    }
  }

  /** A fault-free tick that returns has fetched, after putting back what was stale. */
  lemma {:induction false} UpToFetch(c: Config, s: State, es: seq<Event>) returns (k: nat)
    requires ValidConfig(c) && Inv(c, s) && (s.pc.Reclaiming? || s.pc.Fetching?)
    requires s.pc.Fetching? ==> NoneStale(s.table, s.pc.now - c.lease)
    requires IsRun(c, s, es) && After(c, s, es).pc == Idle
    requires forall i :: 0 <= i < |es| ==> WithinTick(es[i]) && FaultFree(es[i])
    ensures FetchAt(c, s, es, k)
    decreases es
  {
    var e := es[0];
    if e.Fetch? {
      k := 0;
      FetchHere(c, s, es);
    } else {
      BeforeFetchStep(c, s, e);
      StepKeepsInv(c, s, e);
      var rest := es[1..];
      assert forall i :: 0 <= i < |rest| ==> rest[i] == es[i + 1];
      var later := UpToFetch(c, Next(c, s, e), rest);
      FetchLater(c, s, es, later);
      k := later + 1;
    }
  }

  lemma FromFetchOn(c: Config, s: State, es: seq<Event>, k: nat)
    requires ValidConfig(c) && Inv(c, s) && IsRun(c, s, es) && FetchAt(c, s, es, k)
    ensures var f := After(c, s, es[..k]);
            && Inv(c, f) && Enabled(c, f, es[k]) && IsRun(c, Next(c, f, es[k]), es[k + 1..])
            && After(c, Next(c, f, es[k]), es[k + 1..]) == After(c, s, es)
  {
    RunSplit(c, s, es, k);
    assert es[k..][0] == es[k] && es[k..][1..] == es[k + 1..];
    RunKeepsInv(c, s, es[..k]);
  }

  // ----- what a round does -----

  /** `t0` is the table the fetch saw: that at the start of the round, with stale rows put back, and early arrivals. */
  ghost predicate Gathered(c: Config, s: State, es: seq<Event>, t0: Table, clock: int) {
    && s.clock <= clock && Gained(s.table, t0, es) && NoneStale(t0, s.clock - c.lease)
    && (forall id :: id in t0 ==> t0[id].id == id && RowOk(c, clock, t0[id]))
  }

  ghost predicate SettledBy(c: Config, since: int, m: Mail, s': State) {
    && m.id in s'.fates && s'.fates[m.id].Settled? && InOrder(since, s'.clock, s'.fates[m.id])
    && m.id in s'.table && s'.table[m.id] == FinalRow(c, m, s'.fates[m.id])
  }

  /** All of the batch is settled, no other row has changed, and later arrivals are added. */
  ghost predicate Served(c: Config, since: int, es: seq<Event>, t0: Table, batch: seq<Mail>, s': State) {
    && t0.Keys <= s'.table.Keys
    && (forall id :: id in s'.fates <==> Listed(batch, id))
    && (forall i :: 0 <= i < |batch| ==> SettledBy(c, since, batch[i], s'))
    && (forall id :: id in t0 && !Listed(batch, id) ==> s'.table[id] == t0[id])
    && (forall id :: id in s'.table && id !in t0 ==> FromEvents(es, s'.table[id]))
  }

  lemma RoundEffect(c: Config, s: State, es: seq<Event>) returns (t0: Table, batch: seq<Mail>, clock: int)
    requires ValidConfig(c) && Inv(c, s) && Round(c, s, es)
    ensures Gathered(c, s, es, t0, clock) && IsFetch(t0, c.batchSize, s.clock, batch)
    ensures clock <= After(c, s, es).clock && Served(c, clock, es, t0, batch, After(c, s, es))
    ensures Inv(c, After(c, s, es))
  {
    var s1, tail := Next(c, s, TickStart), es[1..];
    assert Inv(c, s1) by { StepKeepsInv(c, s, TickStart); }
    var k := UpToFetch(c, s1, tail);
    FromFetchOn(c, s1, tail, k);
    var f := After(c, s1, tail[..k]);
    t0, batch, clock := f.table, tail[k].batch, f.clock;
    assert Gathered(c, s, es, t0, clock) by {
      ClockForward(c, s1, tail[..k]);
      EarlyArrivals(c, s, es, tail[..k], t0, clock);
    }
    var f1, rest := Next(c, f, Fetch(batch)), tail[k + 1..];
    assert forall i :: 0 <= i < |rest| ==> rest[i] == es[i + k + 2];
    ClockForward(c, f1, rest);
    AfterFetch(c, f, batch, rest, es, k + 2);
  }

  lemma EarlyArrivals(c: Config, s: State, es: seq<Event>, early: seq<Event>, t0: Table, clock: int)
    requires 1 + |early| <= |es| && early == es[1..1 + |early|]
    requires Gained(s.table, t0, early) && NoneStale(t0, s.clock - c.lease) && s.clock <= clock
    requires forall id :: id in t0 ==> t0[id].id == id && RowOk(c, clock, t0[id])
    ensures Gathered(c, s, es, t0, clock)
  {
    forall id | id in t0 && id !in s.table ensures FromEvents(es, t0[id]) {
      FromPart(es, early, 1, t0[id]);
    }
  }

  lemma FromPart(es: seq<Event>, part: seq<Event>, from: nat, m: Mail)
    requires from + |part| <= |es| && part == es[from..from + |part|] && FromEvents(part, m)
    ensures FromEvents(es, m)
  {
    var i :| 0 <= i < |part| && part[i].Enqueue? && m == FromNew(part[i].content, part[i].stamp, part[i].id);
    assert es[from + i] == part[i];
  }

  lemma FetchedAllSettled(c: Config, f: State, batch: seq<Mail>, rest: seq<Event>)
    requires ValidConfig(c) && Inv(c, f) && Enabled(c, f, Fetch(batch))
    requires IsRun(c, Next(c, f, Fetch(batch)), rest) && After(c, Next(c, f, Fetch(batch)), rest).pc == Idle
    requires forall i :: 0 <= i < |rest| ==> WithinTick(rest[i]) && FaultFree(rest[i])
    ensures var s' := After(c, Next(c, f, Fetch(batch)), rest);
            Inv(c, s') && forall id :: id in s'.fates ==> s'.fates[id].Settled?
  {
    var f1 := Next(c, f, Fetch(batch));
    StepKeepsInv(c, f, Fetch(batch));
    SettlingStretch(c, f1, rest);
    AllSettled(c, After(c, f1, rest));
  }

  lemma FetchedFacts(c: Config, f: State, batch: seq<Mail>)
    requires ValidConfig(c) && TableInv(c, f) && Enabled(c, f, Fetch(batch))
    ensures DistinctIds(batch)
    ensures forall i :: 0 <= i < |batch| ==>
      batch[i].id in f.table && f.table[batch[i].id] == batch[i] && batch[i].attempts < U32
  {
    forall i | 0 <= i < |batch| ensures batch[i].attempts < U32 { assert RowOk(c, f.clock, f.table[batch[i].id]); }
  }

  lemma AfterFetch(c: Config, f: State, batch: seq<Mail>, rest: seq<Event>, es: seq<Event>, from: nat)
    requires ValidConfig(c) && Inv(c, f) && Enabled(c, f, Fetch(batch))
    requires IsRun(c, Next(c, f, Fetch(batch)), rest) && After(c, Next(c, f, Fetch(batch)), rest).pc == Idle
    requires forall i :: 0 <= i < |rest| ==> WithinTick(rest[i]) && FaultFree(rest[i])
    requires from <= |es| && rest == es[from..]
    ensures Served(c, f.clock, es, f.table, batch, After(c, Next(c, f, Fetch(batch)), rest))
    ensures Inv(c, After(c, Next(c, f, Fetch(batch)), rest))
  {
    var s', late := After(c, Next(c, f, Fetch(batch)), rest), Inserted(f.table.Keys, rest);
    FetchedAllSettled(c, f, batch, rest);
    assert Served(c, f.clock, es, f.table, batch, s') by {
      ParallelTickIsSequential(c, f, batch, rest);
      FetchedFacts(c, f, batch);
      InsertedFromEvents(f.table.Keys, rest, es, from);
      SettledRows(c, f.clock, es, f.table, batch, late, s');
    }
  }

  lemma AllSettled(c: Config, s: State)
    requires SettlingInv(s) && FlightInv(c, s) && s.pc == Idle
    ensures forall id :: id in s.fates ==> s.fates[id].Settled?
  {
    forall id | id in s.fates ensures s.fates[id].Settled? { assert !Pursued(s, id); }
  }

  lemma SettledRows(c: Config, since: int, es: seq<Event>, t0: Table, batch: seq<Mail>, late: Table, s': State)
    requires DistinctIds(batch) && late.Keys !! t0.Keys
    requires forall i :: 0 <= i < |batch| ==>
      batch[i].id in t0 && t0[batch[i].id] == batch[i] && batch[i].attempts < U32
    requires s'.table == SequentialTick(c, t0, batch, s'.fates) + late
    requires forall id :: id in s'.fates <==> Listed(batch, id)
    requires TimesInv(since, s') && forall id :: id in s'.fates ==> s'.fates[id].Settled?
    requires AllFromEvents(es, late)
    ensures Served(c, since, es, t0, batch, s')
  {
    forall i | 0 <= i < |batch| ensures batch[i].id in s'.fates { assert Listed(batch, batch[i].id); }
    SequentialTickRows(c, t0, batch, s'.fates);
    forall i | 0 <= i < |batch| ensures SettledBy(c, since, batch[i], s') {
      assert InOrder(since, s'.clock, s'.fates[batch[i].id]);
    }
    forall id | id in s'.table && id !in t0 ensures FromEvents(es, s'.table[id]) { assert id in late; }
  }
}
