/**
 Every mail ends sent or dead: ticks that find nothing ready may come in any number, since
 each one that does uses up budget and the clock makes waiting mail ready again.
 */
module Finishing {
  import opened Mails
  import opened Retry
  import opened QueueTable
  import opened Protocol
  import opened Safety
  import opened Guarantees
  import opened Timing
  import opened Rounds
  import opened Liveness

  ghost predicate AllTerminal(t: Table) {
    forall id :: id in t ==> Terminal(t[id])
  }

  /** Due, or left in flight for longer than the lease. */
  predicate Ready(c: Config, clock: int, m: Mail) {
    Due(m, clock) || (m.status == Sending && m.updatedAt < clock - c.lease)
  }

  ghost predicate HasReady(c: Config, s: State) {
    exists id :: id in s.table && Ready(c, s.clock, s.table[id])
  }

  // ----- budget left over -----

  lemma {:induction false} UnfinishedHasBudget(c: Config, t: Table, id: MailId)
    requires id in t && !Terminal(t[id]) && t[id].attempts < c.maxAttempts
    ensures Budget(c, t, t.Keys) > 0
  {
    BudgetWithout(c, t, t.Keys, id);
  }

  lemma NoBudgetIsFinished(c: Config, s: State)
    requires TableInv(c, s) && Budget(c, s.table, s.table.Keys) == 0
    ensures AllTerminal(s.table)
  {
    forall id | id in s.table ensures Terminal(s.table[id]) {
      assert RowOk(c, s.clock, s.table[id]);
      if !Terminal(s.table[id]) { UnfinishedHasBudget(c, s.table, id); }
    }
  }

  // ----- productive rounds -----

  /** Ready mail gives the fetch something to answer. */
  lemma ReadyIsFetched(c: Config, s: State, es: seq<Event>, t0: Table, batch: seq<Mail>, clock: int, id: MailId)
    requires ValidConfig(c) && Gathered(c, s, es, t0, clock) && IsFetch(t0, c.batchSize, s.clock, batch)
    requires id in s.table && Ready(c, s.clock, s.table[id]) && RowOk(c, s.clock, s.table[id])
    ensures batch != []
  {
    assert Kin(s.table[id], t0[id]);
    assert Due(t0[id], s.clock);
  }

  lemma ReadyRoundProcesses(c: Config, s: State, es: seq<Event>)
    requires ValidConfig(c) && Inv(c, s) && Round(c, s, es) && HasReady(c, s)
    ensures |After(c, s, es).fates.Keys| >= 1
  {
    var t0, batch, clock := RoundEffect(c, s, es);
    var id :| id in s.table && Ready(c, s.clock, s.table[id]);
    ReadyIsFetched(c, s, es, t0, batch, clock, id);
    assert Listed(batch, batch[0].id) && batch[0].id in After(c, s, es).fates.Keys;
  }

  /** Rounds that begin with ready mail. */
  ghost function Productive(c: Config, s: State, rounds: seq<seq<Event>>): nat
    requires IsRounds(c, s, rounds)
    decreases rounds
  {
    if rounds == [] then 0
    else (if HasReady(c, s) then 1 else 0) + Productive(c, After(c, s, rounds[0]), rounds[1..])
  }

  lemma {:induction false} ProductiveProcess(c: Config, s: State, rounds: seq<seq<Event>>)
    requires ValidConfig(c) && Inv(c, s) && IsRounds(c, s, rounds)
    ensures Productive(c, s, rounds) <= Processed(c, s, rounds) && Inv(c, AfterRounds(c, s, rounds))
    decreases rounds
  {
    if rounds != [] {
      if HasReady(c, s) { ReadyRoundProcesses(c, s, rounds[0]); }
      RoundKeepsInv(c, s, rounds[0]);
      ProductiveProcess(c, After(c, s, rounds[0]), rounds[1..]);
    }
  }

  /** With mail arriving in any round: rounds that begin with ready mail are paid for by budget, `max_attempts` per new mail. */
  lemma ProductiveBounded(c: Config, s: State, rounds: seq<seq<Event>>)
    requires ValidConfig(c) && Inv(c, s) && IsRounds(c, s, rounds)
    ensures var s' := AfterRounds(c, s, rounds);
            Productive(c, s, rounds) + Budget(c, s'.table, s'.table.Keys) <=
            Budget(c, s.table, s.table.Keys) + c.maxAttempts * |s'.table.Keys - s.table.Keys|
  {
    ProductiveProcess(c, s, rounds);
    DeliveriesBounded(c, s, rounds);
  }

  // ----- no new mail -----

  ghost predicate NoEnqueue(es: seq<Event>) {
    forall i :: 0 <= i < |es| ==> !es[i].Enqueue?
  }

  ghost predicate NoneEnqueue(rounds: seq<seq<Event>>) {
    forall i :: 0 <= i < |rounds| ==> NoEnqueue(rounds[i])
  }

  lemma {:induction false} RunKeys(c: Config, s: State, es: seq<Event>)
    requires IsRun(c, s, es) && NoEnqueue(es)
    ensures After(c, s, es).table.Keys == s.table.Keys
    decreases es
  {
    if es != [] {
      StepKeys(c, s, es[0]);
      RunKeys(c, Next(c, s, es[0]), es[1..]);
    }
  }

  lemma {:induction false} RoundsKeys(c: Config, s: State, rounds: seq<seq<Event>>)
    requires IsRounds(c, s, rounds) && NoneEnqueue(rounds)
    ensures AfterRounds(c, s, rounds).table.Keys == s.table.Keys
    decreases rounds
  {
    if rounds != [] {
      RunKeys(c, s, rounds[0]);
      assert forall i :: 0 <= i < |rounds[1..]| ==> rounds[1..][i] == rounds[i + 1];
      RoundsKeys(c, After(c, s, rounds[0]), rounds[1..]);
    }
  }

  /**
   As many rounds that find mail ready as there is budget leave every mail sent or dead,
   however many idle rounds lie between them.
   */
  lemma EveryMailFinishes(c: Config, s: State, rounds: seq<seq<Event>>)
    requires ValidConfig(c) && Inv(c, s) && IsRounds(c, s, rounds) && NoneEnqueue(rounds)
    requires Productive(c, s, rounds) >= Budget(c, s.table, s.table.Keys)
    ensures AllTerminal(AfterRounds(c, s, rounds).table)
    ensures AfterRounds(c, s, rounds).table.Keys == s.table.Keys
  {
    var s' := AfterRounds(c, s, rounds);
    RoundsKeys(c, s, rounds);
    assert s'.table.Keys - s.table.Keys == {};
    ProductiveBounded(c, s, rounds);
    ProductiveProcess(c, s, rounds);
    NoBudgetIsFinished(c, s');
  }

  // ----- the clock alone -----

  /** Longer than any delay and than the lease. */
  ghost predicate LongEnough(c: Config, gap: nat) {
    DelaysWithin(c, gap) && c.lease <= gap
  }

  /** For a configured relay the longer of maximum delay and lease will do. */
  lemma ConfiguredGap(batchSize: U32Int, concurrency: nat, leaseSecs: U64, retry: RetryPolicy,
                      transports: set<string>, defaultTransport: Option<string>, gap: nat)
    requires gap >= retry.maxDelay * NANOS
    requires gap >= Configured(batchSize, concurrency, leaseSecs, retry, transports, defaultTransport).lease
    ensures LongEnough(Configured(batchSize, concurrency, leaseSecs, retry, transports, defaultTransport), gap)
  {
    ConfiguredRelay(batchSize, concurrency, leaseSecs, retry, transports, defaultTransport);
  }

  /** Every unfinished row was last written by `since`, or is due at once. */
  ghost predicate Rested(t: Table, since: int) {
    forall id :: id in t && !Terminal(t[id]) ==>
      t[id].updatedAt <= since || (Claimable(t[id]) && t[id].nextAttemptAt <= t[id].updatedAt)
  }

  lemma RestedIsReady(c: Config, gap: nat, since: int, s: State)
    requires LongEnough(c, gap) && TableInv(c, s) && WaitsWithin(gap, s.table)
    requires Rested(s.table, since) && s.clock > since + gap && !AllTerminal(s.table)
    ensures HasReady(c, s)
  {
    var id :| id in s.table && !Terminal(s.table[id]);
    assert RowOk(c, s.clock, s.table[id]);
    assert Ready(c, s.clock, s.table[id]);
  }

  lemma IdleRowUnchanged(c: Config, s: State, es: seq<Event>, t0: Table, clock: int, s': State, id: MailId)
    requires ValidConfig(c) && Gathered(c, s, es, t0, clock) && IsFetch(t0, c.batchSize, s.clock, [])
    requires Served(c, clock, es, t0, [], s') && id in s.table && RowOk(c, s.clock, s.table[id])
    ensures id in s'.table && s'.table[id] == s.table[id]
  {
    assert Kin(s.table[id], t0[id]) && !Listed([], id);
    assert !Due(t0[id], s.clock);
  }

  /** A round that processes nothing changes no row, so it disturbs nobody's rest. */
  lemma IdleRoundKeepsRest(c: Config, s: State, es: seq<Event>, since: int)
    requires ValidConfig(c) && Inv(c, s) && Round(c, s, es) && After(c, s, es).fates.Keys == {}
    requires Rested(s.table, since)
    ensures Rested(After(c, s, es).table, since)
  {
    var t0, batch, clock := RoundEffect(c, s, es);
    var s' := After(c, s, es);
    assert batch == [] by {
      if batch != [] { assert Listed(batch, batch[0].id); }
    }
    forall id | id in s'.table && !Terminal(s'.table[id])
      ensures s'.table[id].updatedAt <= since
              || (Claimable(s'.table[id]) && s'.table[id].nextAttemptAt <= s'.table[id].updatedAt)
    {
      if id in s.table {
        assert RowOk(c, s.clock, s.table[id]);
        IdleRowUnchanged(c, s, es, t0, clock, s', id);
      } else {
        assert FromEvents(es, s'.table[id]);
      }
    }
  }

  /** Periods of more than `gap`, the running one begun at `since`, that end with a round that begins with unfinished mail. */
  ghost function BusyPeriods(c: Config, gap: nat, since: int, s: State, rounds: seq<seq<Event>>): nat
    requires IsRounds(c, s, rounds)
    decreases rounds
  {
    if rounds == [] then 0
    else
      var s' := After(c, s, rounds[0]);
      if s.clock > since + gap then
        (if AllTerminal(s.table) then 0 else 1) + BusyPeriods(c, gap, s'.clock, s', rounds[1..])
      else
        BusyPeriods(c, gap, since, s', rounds[1..])
  }

  lemma AllRestedNow(c: Config, s: State)
    requires TableInv(c, s)
    ensures Rested(s.table, s.clock)
  {
    forall id | id in s.table ensures s.table[id].updatedAt <= s.clock { assert RowOk(c, s.clock, s.table[id]); }
  }

  lemma RoundKeepsWaits(c: Config, gap: nat, s: State, es: seq<Event>)
    requires ValidConfig(c) && LongEnough(c, gap) && Inv(c, s) && WaitsWithin(gap, s.table) && Round(c, s, es)
    ensures WaitsWithin(gap, After(c, s, es).table)
  {
    RunKeepsWaits(c, gap, s, es);
  }

  /** What is owed for mail processed since the running period began. */
  ghost function Credit(t: Table, since: int): nat { if Rested(t, since) then 0 else 1 }

  /** One round pays for the period it ends, or leaves the credit for it. */
  lemma RoundPays(c: Config, gap: nat, since: int, s: State, es: seq<Event>)
    requires ValidConfig(c) && LongEnough(c, gap) && Inv(c, s) && WaitsWithin(gap, s.table) && Round(c, s, es)
    ensures var s' := After(c, s, es);
            var n := |s'.fates.Keys|;
            && (s.clock > since + gap && !AllTerminal(s.table) ==> 1 <= n + Credit(s.table, since))
            && (s.clock <= since + gap ==> Credit(s'.table, since) <= n + Credit(s.table, since))
  {
    var s' := After(c, s, es);
    if s.clock > since + gap {
      if !AllTerminal(s.table) && Rested(s.table, since) {
        RestedIsReady(c, gap, since, s);
        ReadyRoundProcesses(c, s, es);
      }
    } else if s'.fates.Keys == {} && Rested(s.table, since) {
      IdleRoundKeepsRest(c, s, es, since);
    }
  }

  lemma PeriodsAddUp(each: nat, k0: set<MailId>, k1: set<MailId>, k2: set<MailId>, b0: nat, b1: nat, b2: nat,
                     n: nat, count: nat, later: nat, credit: nat, credit1: nat)
    requires k0 <= k1 <= k2 && b1 + n <= b0 + each * |k1 - k0|
    requires later + b2 <= b1 + each * |k2 - k1| + credit1
    requires count + credit1 <= later + n + credit
    ensures count + b2 <= b0 + each * |k2 - k0| + credit
  {
    TwoStages(each, k0, k1, k2, b0, b1 + n, b2, later + n - credit1);
  }

  /** The period that goes on after a round. */
  function Since(gap: nat, since: int, s: State, s': State): int { if s.clock > since + gap then s'.clock else since }

  /** What one round does for the count of periods. */
  lemma PeriodStep(c: Config, gap: nat, since: int, s: State, rounds: seq<seq<Event>>)
    requires ValidConfig(c) && LongEnough(c, gap) && Inv(c, s) && WaitsWithin(gap, s.table)
    requires IsRounds(c, s, rounds) && rounds != []
    ensures var s1 := After(c, s, rounds[0]);
            var later := BusyPeriods(c, gap, Since(gap, since, s, s1), s1, rounds[1..]);
            && Inv(c, s1) && WaitsWithin(gap, s1.table)
            && BusyPeriods(c, gap, since, s, rounds) + Credit(s1.table, Since(gap, since, s, s1)) <=
               later + |s1.fates.Keys| + Credit(s.table, since)
  {
    var s1 := After(c, s, rounds[0]);
    RoundPays(c, gap, since, s, rounds[0]);
    RoundKeepsInv(c, s, rounds[0]);
    RoundKeepsWaits(c, gap, s, rounds[0]);
    if s.clock > since + gap { AllRestedNow(c, s1); }
  }

  lemma {:induction false} PeriodsBounded(c: Config, gap: nat, since: int, s: State, rounds: seq<seq<Event>>)
    requires ValidConfig(c) && LongEnough(c, gap) && Inv(c, s) && WaitsWithin(gap, s.table) && IsRounds(c, s, rounds)
    ensures var s' := AfterRounds(c, s, rounds);
            && s.table.Keys <= s'.table.Keys
            && BusyPeriods(c, gap, since, s, rounds) + Budget(c, s'.table, s'.table.Keys) <=
               Budget(c, s.table, s.table.Keys) + c.maxAttempts * |s'.table.Keys - s.table.Keys| + Credit(s.table, since)
    decreases rounds
  {
    if rounds == [] {
      assert s.table.Keys - s.table.Keys == {};
    } else {
      var s1, s' := After(c, s, rounds[0]), AfterRounds(c, s, rounds);
      var since' := Since(gap, since, s, s1);
      PeriodStep(c, gap, since, s, rounds);
      RoundSpends(c, s, rounds[0]);
      PeriodsBounded(c, gap, since', s1, rounds[1..]);
      PeriodsAddUp(c.maxAttempts, s.table.Keys, s1.table.Keys, s'.table.Keys, Budget(c, s.table, s.table.Keys),
                   Budget(c, s1.table, s1.table.Keys), Budget(c, s'.table, s'.table.Keys), |s1.fates.Keys|,
                   BusyPeriods(c, gap, since, s, rounds), BusyPeriods(c, gap, since', s1, rounds[1..]),
                   Credit(s.table, since), Credit(s1.table, since'));
    }
  }

  /**
   With mail arriving all the time: the periods, each longer than every delay and the lease,
   at whose end some mail is unfinished are at most the budget and `max_attempts` per new mail.
   Nothing is asked of the rounds but that the clock goes on.
   */
  lemma BusyPeriodsBounded(c: Config, gap: nat, s: State, rounds: seq<seq<Event>>)
    requires ValidConfig(c) && LongEnough(c, gap) && Reachable(c, s) && IsRounds(c, s, rounds)
    ensures BusyPeriods(c, gap, s.clock, s, rounds) <=
            Budget(c, s.table, s.table.Keys) + c.maxAttempts * |AfterRounds(c, s, rounds).table.Keys - s.table.Keys|
  {
    assert Inv(c, s) by { ReachableInv(c, s); }
    ReachableWaits(c, gap, s);
    AllRestedNow(c, s);
    PeriodsBounded(c, gap, s.clock, s, rounds);
  }

  /** All periods of more than `gap` that the rounds span. */
  ghost function Periods(c: Config, gap: nat, since: int, s: State, rounds: seq<seq<Event>>): nat
    requires IsRounds(c, s, rounds)
    decreases rounds
  {
    if rounds == [] then 0
    else
      var s' := After(c, s, rounds[0]);
      if s.clock > since + gap then 1 + Periods(c, gap, s'.clock, s', rounds[1..])
      else Periods(c, gap, since, s', rounds[1..])
  }

  lemma {:induction false} FinishedStaysFinished(c: Config, s: State, es: seq<Event>)
    requires ValidConfig(c) && Inv(c, s) && IsRun(c, s, es) && NoEnqueue(es) && AllTerminal(s.table)
    ensures AllTerminal(After(c, s, es).table)
  {
    RunKeys(c, s, es);
    forall id | id in s.table ensures Terminal(After(c, s, es).table[id]) { RowsEndure(c, s, es, id); }
  }

  /** While mail is unfinished to the end, every period is a busy one. */
  lemma {:induction false} UnfinishedPeriods(c: Config, gap: nat, since: int, s: State, rounds: seq<seq<Event>>)
    requires ValidConfig(c) && Inv(c, s) && IsRounds(c, s, rounds) && NoneEnqueue(rounds)
    requires !AllTerminal(AfterRounds(c, s, rounds).table)
    ensures !AllTerminal(s.table) && BusyPeriods(c, gap, since, s, rounds) == Periods(c, gap, since, s, rounds)
    decreases rounds
  {
    if rounds != [] {
      var s' := After(c, s, rounds[0]);
      assert forall i :: 0 <= i < |rounds[1..]| ==> rounds[1..][i] == rounds[i + 1];
      RoundKeepsInv(c, s, rounds[0]);
      UnfinishedPeriods(c, gap, if s.clock > since + gap then s'.clock else since, s', rounds[1..]);
      if AllTerminal(s.table) { FinishedStaysFinished(c, s, rounds[0]); }
    }
  }

  /**
   Time alone finishes all mail: from every reachable state, when as many periods longer
   than every delay and the lease have passed as there is budget, ticks coming as they may,
   every mail is sent or dead.
   */
  lemma EveryMailFinishesInTime(c: Config, gap: nat, s: State, rounds: seq<seq<Event>>)
    requires ValidConfig(c) && LongEnough(c, gap) && Reachable(c, s) && IsRounds(c, s, rounds) && NoneEnqueue(rounds)
    requires Periods(c, gap, s.clock, s, rounds) >= Budget(c, s.table, s.table.Keys)
    ensures AllTerminal(AfterRounds(c, s, rounds).table)
    ensures AfterRounds(c, s, rounds).table.Keys == s.table.Keys
  {
    var s' := AfterRounds(c, s, rounds);
    assert Inv(c, s) by { ReachableInv(c, s); }
    RoundsKeys(c, s, rounds);
    assert s'.table.Keys - s.table.Keys == {};
    if !AllTerminal(s'.table) {
      UnfinishedPeriods(c, gap, s.clock, s, rounds);
      assert Budget(c, s'.table, s'.table.Keys) == 0 by {
        ReachableWaits(c, gap, s);
        AllRestedNow(c, s);
        PeriodsBounded(c, gap, s.clock, s, rounds);
      }
      ProductiveProcess(c, s, rounds);
      NoBudgetIsFinished(c, s');
    }
  }
}
