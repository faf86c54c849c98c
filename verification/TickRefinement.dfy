/**
 A parallel tick is a sequential one. Claims, permits, sends, outcomes and insertions
 interleave freely within a tick; the table it leaves is the one obtained by taking
 the fetched mails one after another in fetch order, each through its own queue
 statements, given only what happened to each mail (`fates`).
 */
module TickRefinement {
  import opened Mails
  import opened QueueTable
  import opened Protocol
  import opened Safety

  // ----- the sequential reading -----

  /** The queue statements of one mail, one after another. */
  function DeliverOne(c: Config, t: Table, m: Mail, fate: Fate): Table {
    match fate
    case Untouched => t
    case Orphaned(claimAt) => MarkSending(t, m.id, claimAt)
    case Settled(claimAt, result, doneAt, recordAt) =>
      ApplyWrite(MarkSending(t, m.id, claimAt), m.id, WriteFor(c, m, result, doneAt), recordAt)
  }

  function SequentialTick(c: Config, t: Table, batch: seq<Mail>, fates: map<MailId, Fate>): Table {
    if batch == [] then t
    else
      var fate := if batch[0].id in fates then fates[batch[0].id] else Untouched;
      SequentialTick(c, DeliverOne(c, t, batch[0], fate), batch[1..], fates)
  }

  /** Where a mail's row ends up. */
  function FinalRow(c: Config, m: Mail, fate: Fate): Mail {
    match fate
    case Untouched => m
    case Orphaned(claimAt) => Claimed(m, claimAt)
    case Settled(claimAt, result, doneAt, recordAt) =>
      Written(Claimed(m, claimAt), WriteFor(c, m, result, doneAt), recordAt)
  }

  /** Rows inserted by the events, given the ids already taken. */
  function Inserted(taken: set<MailId>, es: seq<Event>): (rows: Table)
    ensures rows.Keys !! taken
    decreases es
  {
    if es == [] then map[]
    else if es[0].Enqueue? && es[0].id !in taken then
      Inserted(taken + {es[0].id}, es[1..])[es[0].id := FromNew(es[0].content, es[0].stamp, es[0].id)]
    else
      Inserted(taken, es[1..])
  }

  lemma DeliverOneRow(c: Config, t: Table, m: Mail, fate: Fate)
    requires m.id in t && t[m.id] == m && m.attempts < U32
    ensures DeliverOne(c, t, m, fate) == t[m.id := FinalRow(c, m, fate)]
  {
    assert m.attempts % U32 == m.attempts;
  }

  lemma {:induction false} SequentialTickRows(c: Config, t: Table, batch: seq<Mail>, fates: map<MailId, Fate>)
    requires DistinctIds(batch)
    requires forall i :: 0 <= i < |batch| ==>
      batch[i].id in t && t[batch[i].id] == batch[i] && batch[i].attempts < U32 && batch[i].id in fates
    ensures var t' := SequentialTick(c, t, batch, fates);
            && t'.Keys == t.Keys
            && (forall i :: 0 <= i < |batch| ==> t'[batch[i].id] == FinalRow(c, batch[i], fates[batch[i].id]))
            && (forall id :: id in t && !Listed(batch, id) ==> t'[id] == t[id])
    decreases batch
  {
    if batch != [] {
      var m, rest := batch[0], batch[1..];
      assert forall i :: 0 <= i < |rest| ==> rest[i] == batch[i + 1];
      DeliverOneRow(c, t, m, fates[m.id]);
      var t1 := t[m.id := FinalRow(c, m, fates[m.id])];
      SequentialTickRows(c, t1, rest, fates);
      var t' := SequentialTick(c, t1, rest, fates);
      forall i | 0 <= i < |batch| ensures t'[batch[i].id] == FinalRow(c, batch[i], fates[batch[i].id]) {
        if i > 0 {
          assert rest[i - 1] == batch[i];
        } else {
          NotListedTwice(batch);
        }
      }
      forall id | id in t && !Listed(batch, id) ensures t'[id] == t[id] { ListedTail(batch, id); }
    }
  }

  lemma NotListedTwice(batch: seq<Mail>)
    requires batch != [] && DistinctIds(batch)
    ensures !Listed(batch[1..], batch[0].id)
  {
    assert forall i :: 0 <= i < |batch| - 1 ==> batch[1..][i] == batch[i + 1];
  }

  // ----- what holds at every moment of a tick -----

  type Finals = (Mail, Fate) -> Mail

  function FinalsOf(c: Config): Finals { (m: Mail, fate: Fate) => FinalRow(c, m, fate) }

  /**
   `passed` mails of the batch have been taken by the claim loop. The row of each is
   what its fate so far makes it; rows outside the batch are as at the fetch, plus arrivals.
   */
  ghost predicate RowsInv(final: Finals, t0: Table, batch: seq<Mail>, passed: nat, arrived: Table,
                          t: Table, fates: map<MailId, Fate>)
  {
    && passed <= |batch| && DistinctIds(batch)
    && (forall i :: 0 <= i < |batch| ==> batch[i].id in t0)
    && arrived.Keys !! t0.Keys && t.Keys == t0.Keys + arrived.Keys
    && (forall id :: id in arrived ==> t[id] == arrived[id])
    && (forall id :: id in t0 && !Listed(batch, id) ==> t[id] == t0[id])
    && (forall i :: 0 <= i < passed ==>
          batch[i].id in fates && t[batch[i].id] == final(batch[i], fates[batch[i].id]))
    && (forall id :: id in fates ==> Listed(batch[..passed], id))
  }

  /** The claim loop passes one more mail. */
  lemma {:induction false} PassOne(final: Finals, t0: Table, batch: seq<Mail>, passed: nat, arrived: Table,
                t: Table, fates: map<MailId, Fate>, fate: Fate)
    requires RowsInv(final, t0, batch, passed, arrived, t, fates) && passed < |batch|
    ensures var m := batch[passed];
            RowsInv(final, t0, batch, passed + 1, arrived, t[m.id := final(m, fate)], fates[m.id := fate])
  {
    var m := batch[passed];
    assert Listed(batch, m.id);
    assert batch[..passed + 1] == batch[..passed] + [m];
    var fates' := fates[m.id := fate];
    forall id | id in fates' ensures Listed(batch[..passed + 1], id) {
      ListedExtends(batch[..passed], m, id);
    }
  }

  lemma DistinctFrom(batch: seq<Mail>, i: nat)
    requires DistinctIds(batch) && i < |batch|
    ensures forall k :: 0 <= k < |batch| && k != i ==> batch[k].id != batch[i].id
  {
  }

  lemma {:induction false} RefateAt(final: Finals, t0: Table, batch: seq<Mail>, passed: nat, arrived: Table,
                                    t: Table, fates: map<MailId, Fate>, i: nat, fate: Fate)
    requires RowsInv(final, t0, batch, passed, arrived, t, fates) && i < passed
    ensures RowsInv(final, t0, batch, passed, arrived, t[batch[i].id := final(batch[i], fate)], fates[batch[i].id := fate])
  {
    DistinctFrom(batch, i);
    assert Listed(batch, batch[i].id);
    assert batch[..passed][i] == batch[i];
    assert Listed(batch[..passed], batch[i].id);
  }

  /** A passed mail meets another fate. */
  lemma {:induction false} RefateOne(final: Finals, t0: Table, batch: seq<Mail>, passed: nat, arrived: Table,
                                     t: Table, fates: map<MailId, Fate>, m: Mail, fate: Fate)
    requires RowsInv(final, t0, batch, passed, arrived, t, fates) && m in batch && m.id in fates
    ensures t[m.id] == final(m, fates[m.id])
    ensures RowsInv(final, t0, batch, passed, arrived, t[m.id := final(m, fate)], fates[m.id := fate])
  {
    var i :| 0 <= i < |batch| && batch[i] == m;
    assert i < passed by {
      assert Listed(batch[..passed], m.id);
      var j :| 0 <= j < |batch[..passed]| && batch[..passed][j].id == m.id;
      DistinctFrom(batch, i);
      assert batch[j].id == batch[i].id;
    }
    RefateAt(final, t0, batch, passed, arrived, t, fates, i, fate);
  }

  lemma ArriveOne(final: Finals, t0: Table, batch: seq<Mail>, passed: nat, arrived: Table,
                  t: Table, fates: map<MailId, Fate>, m: Mail)
    requires RowsInv(final, t0, batch, passed, arrived, t, fates) && m.id !in t
    ensures RowsInv(final, t0, batch, passed, arrived[m.id := m], t[m.id := m], fates)
  {
  }

  ghost predicate Underway(batch: seq<Mail>, fates: map<MailId, Fate>, m: Mail) {
    m.id in fates && fates[m.id].Orphaned? && m in batch
  }

  /** Mails in flight are passed mails of the batch with no outcome yet. */
  ghost predicate FlightsInv(batch: seq<Mail>, s: State) {
    && (forall h :: h in s.live ==>
          && Underway(batch, s.fates, s.live[h].mail)
          && (s.live[h].phase.Recording? ==> s.fates[s.live[h].mail.id].claimAt <= s.live[h].phase.doneAt))
    && (s.pc.Waiting? ==> Underway(batch, s.fates, s.pc.mail))
  }

  ghost predicate InOrder(since: int, clock: int, fate: Fate) {
    match fate
    case Untouched => true
    case Orphaned(claimAt) => since <= claimAt <= clock
    case Settled(claimAt, _, doneAt, recordAt) => since <= claimAt <= doneAt <= recordAt <= clock
  }

  /** Events follow the clock. */
  ghost predicate TimesInv(since: int, s: State) {
    since <= s.clock && forall id :: id in s.fates ==> InOrder(since, s.clock, s.fates[id])
  }

  /** How many mails of the batch the claim loop has passed. */
  function Passed(batch: seq<Mail>, pc: Pc): int { |batch| - |Rest(pc)| }

  ghost predicate TickInv(c: Config, t0: Table, since: int, batch: seq<Mail>, arrived: Table, s: State) {
    && (InTick(s.pc) || s.pc == Idle)
    && 0 <= Passed(batch, s.pc) && Rest(s.pc) == batch[Passed(batch, s.pc)..]
    && RowsInv(FinalsOf(c), t0, batch, Passed(batch, s.pc), arrived, s.table, s.fates)
    && FlightsInv(batch, s) && TimesInv(since, s)
  }

  predicate WithinTick(e: Event) { !e.Crash? && !e.TickStart? }

  function Arrive(taken: set<MailId>, arrived: Table, e: Event): Table {
    if e.Enqueue? && e.id !in taken then arrived[e.id := FromNew(e.content, e.stamp, e.id)] else arrived
  }

  // ----- each step keeps it -----

  /** What the invariant says of the mail the claim loop takes next. */
  ghost predicate ClaimFacts(s: State) {
    && s.pc.Claiming? && s.pc.rest != []
    && var m := s.pc.rest[0];
       && m.id in s.table && s.table[m.id] == m && m.attempts % U32 == m.attempts
       && forall h :: h in s.live ==> s.live[h].mail.id != m.id
  }

  lemma ClaimFactsHold(c: Config, s: State)
    requires Inv(c, s) && s.pc.Claiming? && s.pc.rest != []
    ensures ClaimFacts(s)
  {
    assert Listed(s.pc.rest, s.pc.rest[0].id);
  }

  lemma ClaimFlights(batch: seq<Mail>, s: State, reply: ClaimReply)
    requires FlightsInv(batch, s) && ClaimFacts(s) && s.pc.rest[0] in batch
    ensures FlightsInv(batch, ClaimNext(s, reply))
  {
  }

  lemma ClaimTimes(since: int, s: State, reply: ClaimReply)
    requires TimesInv(since, s) && ClaimFacts(s)
    ensures TimesInv(since, ClaimNext(s, reply))
  {
  }

  lemma ClaimedByFate(c: Config, s: State, reply: ClaimReply)
    requires ClaimFacts(s)
    ensures var s', m := ClaimNext(s, reply), s.pc.rest[0];
            && m.id in s'.fates && s'.fates == s.fates[m.id := s'.fates[m.id]]
            && s'.table == s.table[m.id := FinalsOf(c)(m, s'.fates[m.id])]
            && Rest(s'.pc) == s.pc.rest[1..] && InTick(s'.pc)
  {
  }

  lemma ClaimTick(c: Config, t0: Table, since: int, batch: seq<Mail>, arrived: Table, s: State, reply: ClaimReply)
    requires TickInv(c, t0, since, batch, arrived, s) && ClaimFacts(s)
    ensures TickInv(c, t0, since, batch, arrived, ClaimNext(s, reply))
  {
    var s', m, p := ClaimNext(s, reply), s.pc.rest[0], Passed(batch, s.pc);
    assert batch[p] == m && batch[p..][1..] == batch[p + 1..];
    ClaimedByFate(c, s, reply);
    PassOne(FinalsOf(c), t0, batch, p, arrived, s.table, s.fates, s'.fates[m.id]);
    ClaimFlights(batch, s, reply);
    ClaimTimes(since, s, reply);
  }

  /** What the invariant says of a task about to record. */
  ghost predicate RecordFacts(s: State, h: nat) {
    && h in s.live && s.live[h].phase.Recording? && s.live[h].phase.doneAt <= s.clock
    && s.live[h].mail.id in s.table
    && (s.pc.Waiting? ==> s.pc.mail.id != s.live[h].mail.id)
    && forall k :: k in s.live && k != h ==> s.live[k].mail.id != s.live[h].mail.id
  }

  lemma RecordFlights(c: Config, batch: seq<Mail>, s: State, h: nat)
    requires FlightsInv(batch, s) && RecordFacts(s, h)
    ensures FlightsInv(batch, RecordOutcome(c, s, h))
  {
    var s', m := RecordOutcome(c, s, h), s.live[h].mail;
    RecordFinishes(c, s, h);
    assert s'.fates == s.fates[m.id := s'.fates[m.id]];
  }

  lemma RecordedByFate(c: Config, s: State, h: nat)
    requires h in s.live && s.live[h].phase.Recording?
    requires var m := s.live[h].mail;
             m.id in s.fates && s.fates[m.id].Orphaned? && m.id in s.table
             && s.table[m.id] == FinalsOf(c)(m, s.fates[m.id])
    ensures var s', m := RecordOutcome(c, s, h), s.live[h].mail;
            && s'.fates == s.fates[m.id := Settled(s.fates[m.id].claimAt, s.live[h].phase.result, s.live[h].phase.doneAt, s.clock)]
            && s'.table == s.table[m.id := FinalsOf(c)(m, s'.fates[m.id])]
  {
  }

  lemma RecordTimes(c: Config, batch: seq<Mail>, since: int, s: State, h: nat)
    requires FlightsInv(batch, s) && TimesInv(since, s) && RecordFacts(s, h)
    ensures TimesInv(since, RecordOutcome(c, s, h))
  {
    assert InOrder(since, s.clock, s.fates[s.live[h].mail.id]);
  }

  lemma RecordRows(c: Config, t0: Table, batch: seq<Mail>, passed: nat, arrived: Table, s: State, h: nat)
    requires RowsInv(FinalsOf(c), t0, batch, passed, arrived, s.table, s.fates)
    requires h in s.live && s.live[h].phase.Recording? && s.live[h].mail.id in s.table
    requires Underway(batch, s.fates, s.live[h].mail)
    ensures var s' := RecordOutcome(c, s, h);
            RowsInv(FinalsOf(c), t0, batch, passed, arrived, s'.table, s'.fates)
  {
    var s', m := RecordOutcome(c, s, h), s.live[h].mail;
    RefateOne(FinalsOf(c), t0, batch, passed, arrived, s.table, s.fates, m, s'.fates[m.id]);
    RecordedByFate(c, s, h);
  }

  lemma RecordTick(c: Config, t0: Table, since: int, batch: seq<Mail>, arrived: Table, s: State, h: nat)
    requires TickInv(c, t0, since, batch, arrived, s) && RecordFacts(s, h)
    ensures TickInv(c, t0, since, batch, arrived, RecordOutcome(c, s, h))
  {
    RecordFlights(c, batch, s, h);
    RecordTimes(c, batch, since, s, h);
    RecordFinishes(c, s, h);
    RecordRows(c, t0, batch, Passed(batch, s.pc), arrived, s, h);
  }

  lemma EnqueueTick(c: Config, t0: Table, since: int, batch: seq<Mail>, arrived: Table, s: State, e: Event)
    requires TickInv(c, t0, since, batch, arrived, s) && Enabled(c, s, e) && e.Enqueue?
    ensures TickInv(c, t0, since, batch, Arrive(s.table.Keys, arrived, e), Next(c, s, e))
  {
    if e.id !in s.table {
      ArriveOne(FinalsOf(c), t0, batch, Passed(batch, s.pc), arrived, s.table, s.fates,
                FromNew(e.content, e.stamp, e.id));
    }
  }

  lemma SpawnFlights(batch: seq<Mail>, s: State, s': State)
    requires FlightsInv(batch, s) && s.pc.Waiting? && s'.fates == s.fates && s'.pc == Claiming(s.pc.rest)
    requires s'.live == s.live[s.nextHandle := Task(s.pc.mail, Spawned)]
    ensures FlightsInv(batch, s')
  {
  }

  lemma SpawnTick(c: Config, t0: Table, since: int, batch: seq<Mail>, arrived: Table, s: State)
    requires TickInv(c, t0, since, batch, arrived, s) && Enabled(c, s, Spawn)
    ensures TickInv(c, t0, since, batch, arrived, Next(c, s, Spawn))
  {
    var s' := Next(c, s, Spawn);
    SpawnFlights(batch, s, s');
    assert Rest(s'.pc) == Rest(s.pc) && s'.table == s.table && s'.fates == s.fates && s'.clock == s.clock;
  }

  lemma PhaseFlights(batch: seq<Mail>, since: int, s: State, h: nat, phase: Phase)
    requires FlightsInv(batch, s) && TimesInv(since, s) && h in s.live
    requires phase.Recording? ==> phase.doneAt == s.clock
    ensures FlightsInv(batch, SetPhase(s, h, phase))
  {
    assert InOrder(since, s.clock, s.fates[s.live[h].mail.id]);
  }

  lemma PhaseTick(c: Config, t0: Table, since: int, batch: seq<Mail>, arrived: Table, s: State, e: Event)
    requires TickInv(c, t0, since, batch, arrived, s) && Enabled(c, s, e)
    requires e.BeginSend? || e.Refuse? || e.SendDone?
    ensures TickInv(c, t0, since, batch, arrived, Next(c, s, e))
  {
    match e
    case BeginSend(h) => PhaseFlights(batch, since, s, h, InSend);
    case Refuse(h) => PhaseFlights(batch, since, s, h, Recording(Errored(NO_TRANSPORT), s.clock));
    case SendDone(h, result) => PhaseFlights(batch, since, s, h, Recording(result, s.clock));
  }

  lemma {:induction false} TaskLostTick(c: Config, t0: Table, since: int, batch: seq<Mail>, arrived: Table, s: State, h: nat)
    requires TickInv(c, t0, since, batch, arrived, s) && h in s.live
    ensures TickInv(c, t0, since, batch, arrived, LoseTask(c, s, h))
  {
    TaskLostFinishes(c, s, h);
    assert LoseTask(c, s, h).fates == s.fates;
  }

  lemma QuietTick(c: Config, t0: Table, since: int, batch: seq<Mail>, arrived: Table, s: State, e: Event)
    requires TickInv(c, t0, since, batch, arrived, s) && Enabled(c, s, e)
    requires e.Advance? || e.ClaimsDone? || e.TickEnd?
    ensures TickInv(c, t0, since, batch, arrived, Next(c, s, e))
  {
    var s' := Next(c, s, e);
    assert forall id :: id in s.fates ==> InOrder(since, s'.clock, s.fates[id]) by {
      forall id | id in s.fates ensures InOrder(since, s'.clock, s.fates[id]) {
        assert InOrder(since, s.clock, s.fates[id]);
      }
    }
  }

  lemma TaskStepTick(c: Config, t0: Table, since: int, batch: seq<Mail>, arrived: Table, s: State, e: Event)
    requires TickInv(c, t0, since, batch, arrived, s) && Enabled(c, s, e)
    requires e.BeginSend? || e.Refuse? || e.SendDone? || e.TaskLost? || e.Spawn?
    ensures TickInv(c, t0, since, batch, arrived, Next(c, s, e))
  {
    match e
    case Spawn => SpawnTick(c, t0, since, batch, arrived, s);
    case TaskLost(h) => TaskLostTick(c, t0, since, batch, arrived, s, h);
    case _ => PhaseTick(c, t0, since, batch, arrived, s, e);
  }

  ghost predicate StepFacts(s: State, e: Event) {
    && (e.Claim? ==> ClaimFacts(s))
    && (e.Record? ==> RecordFacts(s, e.handle))
  }

  lemma StepFactsHold(c: Config, s: State, e: Event)
    requires Inv(c, s) && Enabled(c, s, e)
    ensures StepFacts(s, e)
  {
    match e
    case Claim(_) => ClaimFactsHold(c, s);
    case Record(h) => assert Held(s.table, s.live[h].mail);
    case _ =>
  }

  lemma {:induction false} TickStep(c: Config, t0: Table, since: int, batch: seq<Mail>, arrived: Table, s: State, e: Event)
    requires TickInv(c, t0, since, batch, arrived, s) && StepFacts(s, e)
    requires Enabled(c, s, e) && WithinTick(e)
    ensures TickInv(c, t0, since, batch, Arrive(s.table.Keys, arrived, e), Next(c, s, e))
  {
    match e
    case Claim(reply) => ClaimTick(c, t0, since, batch, arrived, s, reply);
    case Record(h) => RecordTick(c, t0, since, batch, arrived, s, h);
    case Enqueue(_, _, _) => EnqueueTick(c, t0, since, batch, arrived, s, e);
    case Advance(_) | ClaimsDone | TickEnd => QuietTick(c, t0, since, batch, arrived, s, e);
    case BeginSend(_) | Refuse(_) | SendDone(_, _) | TaskLost(_) | Spawn =>
      TaskStepTick(c, t0, since, batch, arrived, s, e);
  }

  // ----- the theorem -----

  lemma {:induction false} TickAdvances(c: Config, t0: Table, since: int, batch: seq<Mail>, arrived: Table,
                                        s: State, e: Event)
    requires ValidConfig(c) && Inv(c, s) && TickInv(c, t0, since, batch, arrived, s)
    requires Enabled(c, s, e) && WithinTick(e)
    ensures Inv(c, Next(c, s, e)) && TickInv(c, t0, since, batch, Arrive(s.table.Keys, arrived, e), Next(c, s, e))
    ensures Next(c, s, e).table.Keys == s.table.Keys + (if e.Enqueue? then {e.id} else {})
  {
    StepFactsHold(c, s, e);
    assert TickInv(c, t0, since, batch, Arrive(s.table.Keys, arrived, e), Next(c, s, e)) by {
      TickStep(c, t0, since, batch, arrived, s, e);
    }
    assert Next(c, s, e).table.Keys == s.table.Keys + (if e.Enqueue? then {e.id} else {}) by { TakenAfter(c, s, e); }
    StepKeepsInv(c, s, e);
  }

  /** Rows collected along the events. */
  function Arrivals(taken: set<MailId>, arrived: Table, es: seq<Event>): Table
    decreases es
  {
    if es == [] then arrived
    else Arrivals(taken + (if es[0].Enqueue? then {es[0].id} else {}), Arrive(taken, arrived, es[0]), es[1..])
  }

  lemma {:induction false} ArrivalsAreInserted(taken: set<MailId>, arrived: Table, es: seq<Event>)
    ensures Arrivals(taken, arrived, es) == arrived + Inserted(taken, es)
    decreases es
  {
    if es == [] {
      assert arrived + map[] == arrived;
    } else {
      ArrivalsAreInserted(taken + (if es[0].Enqueue? then {es[0].id} else {}), Arrive(taken, arrived, es[0]), es[1..]);
      InsertedUnfolds(taken, arrived, es);
    }
  }

  /** Any stretch of a tick keeps the tick invariant, with what arrived meanwhile. */
  lemma {:induction false} TickStretch(c: Config, t0: Table, since: int, batch: seq<Mail>, arrived: Table,
                                       s: State, es: seq<Event>)
    requires ValidConfig(c) && Inv(c, s) && TickInv(c, t0, since, batch, arrived, s) && IsRun(c, s, es)
    requires forall i :: 0 <= i < |es| ==> WithinTick(es[i])
    ensures TickInv(c, t0, since, batch, Arrivals(s.table.Keys, arrived, es), After(c, s, es))
    decreases es
  {
    if es != [] {
      TickAdvances(c, t0, since, batch, arrived, s, es[0]);
      TickStretch(c, t0, since, batch, Arrive(s.table.Keys, arrived, es[0]), Next(c, s, es[0]), es[1..]);
    }
  }

  lemma InsertedUnfolds(taken: set<MailId>, arrived: Table, es: seq<Event>)
    requires es != []
    ensures arrived + Inserted(taken, es) ==
            Arrive(taken, arrived, es[0])
            + Inserted(taken + (if es[0].Enqueue? then {es[0].id} else {}), es[1..])
  {
    var e := es[0];
    if e.Enqueue? {
      if e.id in taken {
        assert taken + {e.id} == taken;
      } else {
        var m, later := FromNew(e.content, e.stamp, e.id), Inserted(taken + {e.id}, es[1..]);
        assert arrived[e.id := m] + later == arrived + later[e.id := m];
      }
    } else {
      assert taken + {} == taken;
    }
  }

  /** Only an insertion takes a new id. */
  lemma TakenAfter(c: Config, s: State, e: Event)
    requires Enabled(c, s, e) && StepFacts(s, e)
    ensures Next(c, s, e).table.Keys == s.table.Keys + (if e.Enqueue? then {e.id} else {})
  {
    match e
    case Record(h) => RecordFinishes(c, s, h);
    case TaskLost(h) => TaskLostFinishes(c, s, h);
    case _ =>
  }

  lemma FetchedRows(final: Finals, t0: Table, batch: seq<Mail>)
    requires DistinctIds(batch) && forall i :: 0 <= i < |batch| ==> batch[i].id in t0
    ensures RowsInv(final, t0, batch, 0, map[], t0, map[])
  {
    assert t0.Keys + {} == t0.Keys;
  }

  lemma {:induction false} FetchStartsTick(c: Config, s: State, batch: seq<Mail>)
    requires ValidConfig(c) && TableInv(c, s) && s.live == map[] && Enabled(c, s, Fetch(batch))
    ensures TickInv(c, s.table, s.clock, batch, map[], Next(c, s, Fetch(batch)))
    ensures forall i :: 0 <= i < |batch| ==> batch[i].attempts < U32
  {
    var s' := Next(c, s, Fetch(batch));
    assert Rest(s'.pc) == batch && batch[0..] == batch;
    FetchedRows(FinalsOf(c), s.table, batch);
    forall i | 0 <= i < |batch| ensures batch[i].attempts < U32 { assert RowOk(c, s.clock, s.table[batch[i].id]); }
  }

  /** From the fetch, which found `t0`, to the return of the tick. */
  lemma {:induction false} WholeTick(c: Config, t0: Table, since: int, batch: seq<Mail>, s: State, es: seq<Event>)
    requires ValidConfig(c) && Inv(c, s) && TickInv(c, t0, since, batch, map[], s) && s.table.Keys == t0.Keys
    requires forall i :: 0 <= i < |batch| ==>
      batch[i].id in t0 && t0[batch[i].id] == batch[i] && batch[i].attempts < U32
    requires IsRun(c, s, es) && After(c, s, es).pc == Idle && forall i :: 0 <= i < |es| ==> WithinTick(es[i])
    ensures var s' := After(c, s, es);
            && s'.table == SequentialTick(c, t0, batch, s'.fates) + Inserted(t0.Keys, es)
            && (forall id :: id in s'.fates <==> Listed(batch, id))
            && TimesInv(since, s')
  {
    TickStretch(c, t0, since, batch, map[], s, es);
    ArrivalsAreInserted(t0.Keys, map[], es);
    TickOver(c, t0, since, batch, Inserted(t0.Keys, es), After(c, s, es));
  }

  /**
   For every interleaving of a tick, with any pattern of failed claims, lost tasks,
   failed writes and concurrent insertions: once the tick is over, the table is the
   one left by handling the fetched mails one by one in fetch order, plus what was
   inserted meanwhile; and exactly the fetched mails have met a fate, each in clock order.
   */
  lemma {:induction false} ParallelTickIsSequential(c: Config, s: State, batch: seq<Mail>, es: seq<Event>)
    requires ValidConfig(c) && Inv(c, s) && Enabled(c, s, Fetch(batch))
    requires IsRun(c, Next(c, s, Fetch(batch)), es)
    requires forall i :: 0 <= i < |es| ==> WithinTick(es[i])
    requires After(c, Next(c, s, Fetch(batch)), es).pc == Idle
    ensures var s' := After(c, Next(c, s, Fetch(batch)), es);
            && s'.table == SequentialTick(c, s.table, batch, s'.fates) + Inserted(s.table.Keys, es)
            && (forall id :: id in s'.fates <==> Listed(batch, id))
            && TimesInv(s.clock, s')
  {
    FetchStartsTick(c, s, batch);
    StepKeepsInv(c, s, Fetch(batch));
    WholeTick(c, s.table, s.clock, batch, Next(c, s, Fetch(batch)), es);
  }

  lemma {:induction false} TickOver(c: Config, t0: Table, since: int, batch: seq<Mail>, arrived: Table, s: State)
    requires TickInv(c, t0, since, batch, map[] + arrived, s) && s.pc == Idle
    requires forall i :: 0 <= i < |batch| ==>
      batch[i].id in t0 && t0[batch[i].id] == batch[i] && batch[i].attempts < U32
    ensures s.table == SequentialTick(c, t0, batch, s.fates) + arrived
    ensures forall id :: id in s.fates <==> Listed(batch, id)
  {
    assert map[] + arrived == arrived;
    assert batch[..|batch|] == batch;
    SequentialTickRows(c, t0, batch, s.fates);
    var t' := SequentialTick(c, t0, batch, s.fates);
    forall id | id in t0 ensures s.table[id] == t'[id] {
      if Listed(batch, id) {
        var i :| 0 <= i < |batch| && batch[i].id == id;
        assert s.table[batch[i].id] == FinalsOf(c)(batch[i], s.fates[batch[i].id]);
      }
    }
  }

  // ----- the same with per-mail oracles -----

  /** What is to become of each mail: transport answer and times, or where its delivery breaks off. */
  type Oracle = MailId -> Fate

  /** The event happens as the oracle of its mail says. */
  ghost predicate Agrees(oracle: Oracle, s: State, e: Event) {
    match e
    case Claim(reply) =>
      s.pc.Claiming? && s.pc.rest != [] ==>
        (var fate := oracle(s.pc.rest[0].id);
         match reply
         case Granted => !fate.Untouched? && fate.claimAt == s.clock
         case Refused => fate.Untouched?
         case ReplyLost => fate == Orphaned(s.clock))
    case Refuse(h) => h in s.live && oracle(s.live[h].mail.id).Settled? ==>
      (var fate := oracle(s.live[h].mail.id); fate.result == Errored(NO_TRANSPORT) && fate.doneAt == s.clock)
    case SendDone(h, result) => h in s.live && oracle(s.live[h].mail.id).Settled? ==>
      (var fate := oracle(s.live[h].mail.id); fate.result == result && fate.doneAt == s.clock)
    case Record(h) => h in s.live ==>
      oracle(s.live[h].mail.id).Settled? && oracle(s.live[h].mail.id).recordAt == s.clock
    case TaskLost(h) => h in s.live ==> oracle(s.live[h].mail.id).Orphaned?
    case _ => true
  }

  ghost predicate Follows(c: Config, oracle: Oracle, s: State, es: seq<Event>)
    requires IsRun(c, s, es)
    decreases es
  {
    es == [] || (Agrees(oracle, s, es[0]) && Follows(c, oracle, Next(c, s, es[0]), es[1..]))
  }

  ghost predicate Pursued(s: State, id: MailId) {
    (s.pc.Waiting? && s.pc.mail.id == id) || exists h :: h in s.live && s.live[h].mail.id == id
  }

  /** The oracle has come true, or will when the mail's task ends. */
  ghost predicate Foretold(oracle: Oracle, s: State, id: MailId) {
    id in s.fates ==>
      || s.fates[id] == oracle(id)
      || (Pursued(s, id) && oracle(id).Settled? && s.fates[id] == Orphaned(oracle(id).claimAt))
  }

  ghost predicate OracleInv(oracle: Oracle, s: State) {
    && (forall id :: id in s.fates ==> Foretold(oracle, s, id))
    && (forall h :: h in s.live ==>
          var id := s.live[h].mail.id;
          && id in s.fates && s.fates[id].Orphaned?
          && (s.live[h].phase.Recording? && oracle(id).Settled? ==>
                s.live[h].phase == Recording(oracle(id).result, oracle(id).doneAt)))
    && (s.pc.Waiting? ==> s.pc.mail.id in s.fates && s.fates[s.pc.mail.id].Orphaned?)
  }

  lemma OracleClaim(oracle: Oracle, s: State, reply: ClaimReply)
    requires OracleInv(oracle, s) && ClaimFacts(s) && Agrees(oracle, s, Claim(reply))
    ensures OracleInv(oracle, ClaimNext(s, reply))
  {
    var s', m := ClaimNext(s, reply), s.pc.rest[0];
    forall id | id in s'.fates ensures Foretold(oracle, s', id) {
      if id != m.id { assert Foretold(oracle, s, id); }
    }
  }

  lemma OracleSpawn(oracle: Oracle, s: State, s': State)
    requires OracleInv(oracle, s) && s.pc.Waiting? && s.nextHandle !in s.live
    requires s'.fates == s.fates && s'.pc == Claiming(s.pc.rest)
    requires s'.live == s.live[s.nextHandle := Task(s.pc.mail, Spawned)]
    ensures OracleInv(oracle, s')
  {
    forall id | id in s'.fates ensures Foretold(oracle, s', id) {
      assert Foretold(oracle, s, id);
      if Pursued(s, id) {
        if s.pc.mail.id == id {
          assert s'.live[s.nextHandle].mail.id == id;
        } else {
          var h :| h in s.live && s.live[h].mail.id == id;
          assert h in s'.live && s'.live[h].mail.id == id;
        }
      }
    }
  }

  lemma OraclePhase(oracle: Oracle, s: State, h: nat, phase: Phase)
    requires OracleInv(oracle, s) && h in s.live
    requires phase.Recording? && oracle(s.live[h].mail.id).Settled? ==>
      phase == Recording(oracle(s.live[h].mail.id).result, oracle(s.live[h].mail.id).doneAt)
    ensures OracleInv(oracle, SetPhase(s, h, phase))
  {
    var s' := SetPhase(s, h, phase);
    forall id | id in s'.fates ensures Foretold(oracle, s', id) {
      assert Foretold(oracle, s, id);
      assert forall k :: k in s.live ==> k in s'.live && s'.live[k].mail == s.live[k].mail;
    }
  }

  lemma PursuedElsewhere(s: State, s': State, h: nat, id: MailId)
    requires h in s.live && s'.live == s.live - {h} && s'.pc == s.pc && s.live[h].mail.id != id && Pursued(s, id)
    ensures Pursued(s', id)
  {
    if !(s.pc.Waiting? && s.pc.mail.id == id) {
      var k :| k in s.live && s.live[k].mail.id == id;
      assert k in s'.live;
    }
  }

  lemma OracleRecord(c: Config, oracle: Oracle, s: State, h: nat)
    requires OracleInv(oracle, s) && RecordFacts(s, h) && Agrees(oracle, s, Record(h))
    ensures OracleInv(oracle, RecordOutcome(c, s, h))
  {
    var s', m := RecordOutcome(c, s, h), s.live[h].mail;
    RecordFinishes(c, s, h);
    assert Foretold(oracle, s, m.id);
    assert s'.fates == s.fates[m.id := oracle(m.id)];
    forall id | id in s'.fates ensures Foretold(oracle, s', id) {
      if id != m.id {
        assert Foretold(oracle, s, id);
        if Pursued(s, id) { PursuedElsewhere(s, s', h, id); }
      }
    }
  }

  lemma OracleLost(c: Config, oracle: Oracle, s: State, h: nat)
    requires OracleInv(oracle, s) && h in s.live && Agrees(oracle, s, TaskLost(h))
    ensures OracleInv(oracle, LoseTask(c, s, h))
  {
    var s' := LoseTask(c, s, h);
    TaskLostFinishes(c, s, h);
    assert s'.fates == s.fates;
    forall id | id in s'.fates ensures Foretold(oracle, s', id) {
      assert Foretold(oracle, s, id);
      if Pursued(s, id) && id != s.live[h].mail.id { PursuedElsewhere(s, s', h, id); }
    }
  }

  lemma OracleStep(c: Config, oracle: Oracle, s: State, e: Event)
    requires OracleInv(oracle, s) && StepFacts(s, e) && s.nextHandle !in s.live
    requires InTick(s.pc) || s.pc == Idle
    requires Enabled(c, s, e) && WithinTick(e) && Agrees(oracle, s, e)
    ensures OracleInv(oracle, Next(c, s, e))
  {
    match e
    case Claim(reply) => OracleClaim(oracle, s, reply);
    case Spawn => OracleSpawn(oracle, s, Next(c, s, e));
    case BeginSend(h) => OraclePhase(oracle, s, h, InSend);
    case Refuse(h) => OraclePhase(oracle, s, h, Recording(Errored(NO_TRANSPORT), s.clock));
    case SendDone(h, result) => OraclePhase(oracle, s, h, Recording(result, s.clock));
    case Record(h) => OracleRecord(c, oracle, s, h);
    case TaskLost(h) => OracleLost(c, oracle, s, h);
    case Advance(_) | Enqueue(_, _, _) | ClaimsDone | TickEnd =>
      forall id | id in s.fates ensures Foretold(oracle, Next(c, s, e), id) { assert Foretold(oracle, s, id); }
  }

  lemma {:induction false} OracleStretch(c: Config, oracle: Oracle, s: State, es: seq<Event>)
    requires ValidConfig(c) && Inv(c, s) && OracleInv(oracle, s) && (InTick(s.pc) || s.pc == Idle)
    requires IsRun(c, s, es) && Follows(c, oracle, s, es)
    requires forall i :: 0 <= i < |es| ==> WithinTick(es[i])
    ensures OracleInv(oracle, After(c, s, es)) && Inv(c, After(c, s, es))
    decreases es
  {
    if es != [] {
      var e, s' := es[0], Next(c, s, es[0]);
      assert OracleInv(oracle, s') && (InTick(s'.pc) || s'.pc == Idle) by {
        StepFactsHold(c, s, e);
        assert s.nextHandle !in s.live;
        OracleStep(c, oracle, s, e);
      }
      StepKeepsInv(c, s, e);
      OracleStretch(c, oracle, s', es[1..]);
    }
  }

  /**
   With the fate of every mail given by an oracle, all interleavings of a tick that
   follow it leave one and the same table: that of the sequential tick.
   */
  lemma {:induction false} OracleFixesTick(c: Config, oracle: Oracle, s: State, batch: seq<Mail>, es: seq<Event>)
    requires ValidConfig(c) && Inv(c, s) && Enabled(c, s, Fetch(batch))
    requires IsRun(c, Next(c, s, Fetch(batch)), es) && Follows(c, oracle, Next(c, s, Fetch(batch)), es)
    requires forall i :: 0 <= i < |es| ==> WithinTick(es[i])
    requires After(c, Next(c, s, Fetch(batch)), es).pc == Idle
    ensures After(c, Next(c, s, Fetch(batch)), es).table ==
            SequentialTick(c, s.table, batch, map id | id in BatchIds(batch) :: oracle(id)) + Inserted(s.table.Keys, es)
  {
    var s1 := Next(c, s, Fetch(batch));
    var s' := After(c, s1, es);
    ParallelTickIsSequential(c, s, batch, es);
    assert forall id :: id in s'.fates ==> s'.fates[id] == oracle(id) by {
      StepKeepsInv(c, s, Fetch(batch));
      FetchOracle(c, oracle, s, batch);
      OracleStretch(c, oracle, s1, es);
      OracleCameTrue(c, oracle, s');
    }
    assert s'.fates == map id | id in BatchIds(batch) :: oracle(id);
  }

  lemma FetchOracle(c: Config, oracle: Oracle, s: State, batch: seq<Mail>)
    requires Enabled(c, s, Fetch(batch)) && FlightInv(c, s)
    ensures OracleInv(oracle, Next(c, s, Fetch(batch)))
  {
  }

  lemma OracleCameTrue(c: Config, oracle: Oracle, s: State)
    requires OracleInv(oracle, s) && FlightInv(c, s) && s.pc == Idle
    ensures forall id :: id in s.fates ==> s.fates[id] == oracle(id)
  {
    forall id | id in s.fates ensures s.fates[id] == oracle(id) { assert Foretold(oracle, s, id); }
  }

  function BatchIds(batch: seq<Mail>): (ids: set<MailId>)
    ensures forall id :: id in ids <==> Listed(batch, id)
  {
    set i | 0 <= i < |batch| :: batch[i].id
  }
}
