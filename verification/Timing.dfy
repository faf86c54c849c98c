/**
 Times over whole runs: how long a mail may be kept waiting at most, and what follows for
 the dispatcher of a configured relay.
 */
module Timing {
  import opened Mails
  import opened Retry
  import opened QueueTable
  import opened Protocol
  import opened Safety
  import opened Guarantees

  ghost predicate PositiveDelays(c: Config) {
    forall n: U32Int :: c.delays(n) > 0
  }

  /** No delay is longer than `longest`. */
  ghost predicate DelaysWithin(c: Config, longest: nat) {
    forall n: U32Int :: c.delays(n) <= longest
  }

  // ----- the configured relay -----

  lemma DelayWithinMaximum(p: RetryPolicy, n: U32Int)
    ensures RetryDelay(p, n) <= p.maxDelay * NANOS
  {
    BackoffMonotone(p, n, n);
  }

  /** What configuration loading insists on is what the protocol needs; delays are positive exactly when both settings are, and never above the maximum. */
  lemma ConfiguredRelay(batchSize: U32Int, concurrency: nat, leaseSecs: U64, retry: RetryPolicy,
                        transports: set<string>, defaultTransport: Option<string>)
    ensures var c := Configured(batchSize, concurrency, leaseSecs, retry, transports, defaultTransport);
            && (ValidConfig(c) <==> batchSize >= 1 && concurrency >= 1 && retry.maxAttempts >= 1)
            && (PositiveDelays(c) <==> retry.baseDelay > 0 && retry.maxDelay > 0)
            && DelaysWithin(c, retry.maxDelay * NANOS)
            && (c.batchSize, c.concurrency, c.maxAttempts) == (batchSize, concurrency, retry.maxAttempts)
            && (c.transports, c.defaultTransport) == (transports, defaultTransport)
            && c.lease == (if leaseSecs <= 9_223_372_036_854_775 then leaseSecs * 1_000_000_000 else 120_000_000_000)
            && forall n: U32Int :: c.delays(n) == RetryDelay(retry, n)
  {
    var c := Configured(batchSize, concurrency, leaseSecs, retry, transports, defaultTransport);
    forall n: U32Int
      ensures c.delays(n) <= retry.maxDelay * NANOS && (c.delays(n) > 0 <==> retry.baseDelay > 0 && retry.maxDelay > 0)
    {
      DelayWithinMaximum(retry, n);
      RetryDelayPositiveIff(retry, n);
    }
    assert PositiveDelays(c) ==> c.delays(0) > 0;
  }

  // ----- the longest wait -----

  /** No mail waits longer than the longest delay after its row was last written. */
  ghost predicate WaitsWithin(longest: nat, t: Table) {
    forall id :: id in t ==> t[id].nextAttemptAt <= t[id].updatedAt + longest
  }

  lemma RecordedWait(c: Config, longest: nat, s: State, h: nat)
    requires DelaysWithin(c, longest) && Recordable(c, s, h)
    requires var row := s.table[s.live[h].mail.id]; row.nextAttemptAt <= row.updatedAt + longest
    ensures var row := RecordOutcome(c, s, h).table[s.live[h].mail.id]; row.nextAttemptAt <= row.updatedAt + longest
  {
  }

  lemma RecordKeepsWaits(c: Config, longest: nat, s: State, h: nat)
    requires DelaysWithin(c, longest) && WaitsWithin(longest, s.table) && Recordable(c, s, h)
    ensures WaitsWithin(longest, RecordOutcome(c, s, h).table)
  {
    RecordFinishes(c, s, h);
    RecordedWait(c, longest, s, h);
  }

  lemma RequeueKeepsWaits(c: Config, longest: nat, s: State, olderThan: int)
    requires TableInv(c, s) && WaitsWithin(longest, s.table)
    ensures WaitsWithin(longest, RequeueStale(s.table, olderThan, s.clock))
    ensures WaitsWithin(longest, RequeueSending(s.table, s.clock))
  {
    forall id | id in s.table ensures s.table[id].updatedAt <= s.clock { assert RowOk(c, s.clock, s.table[id]); }
  }

  lemma ClaimKeepsWaits(longest: nat, s: State, reply: ClaimReply)
    requires HeadFetched(s) && WaitsWithin(longest, s.table)
    ensures WaitsWithin(longest, ClaimNext(s, reply).table)
  {
  }

  lemma WriteKeepsWaits(c: Config, longest: nat, s: State, e: Event)
    requires DelaysWithin(c, longest) && TableInv(c, s) && WaitsWithin(longest, s.table)
    requires WriteFacts(c, s, e) && Enabled(c, s, e)
    ensures WaitsWithin(longest, Next(c, s, e).table)
  {
    if e.Record? {
      RecordKeepsWaits(c, longest, s, e.handle);
    } else if e.Claim? {
      ClaimKeepsWaits(longest, s, e.reply);
    } else if e.Reclaim? {
      RequeueKeepsWaits(c, longest, s, s.pc.now - c.lease);
    } else if e.Recover? {
      RequeueKeepsWaits(c, longest, s, 0);
    } else if !e.Enqueue? {
      QuietTable(c, s, e);
    }
  }

  lemma StepKeepsWaits(c: Config, longest: nat, s: State, e: Event)
    requires ValidConfig(c) && DelaysWithin(c, longest) && Inv(c, s) && WaitsWithin(longest, s.table) && Enabled(c, s, e)
    ensures WaitsWithin(longest, Next(c, s, e).table)
  {
    WriteFactsHold(c, s, e);
    WriteKeepsWaits(c, longest, s, e);
  }

  lemma {:induction false} RunKeepsWaits(c: Config, longest: nat, s: State, es: seq<Event>)
    requires ValidConfig(c) && DelaysWithin(c, longest) && Inv(c, s) && WaitsWithin(longest, s.table) && IsRun(c, s, es)
    ensures WaitsWithin(longest, After(c, s, es).table)
    decreases es
  {
    if es != [] {
      StepKeepsWaits(c, longest, s, es[0]);
      StepKeepsInv(c, s, es[0]);
      RunKeepsWaits(c, longest, Next(c, s, es[0]), es[1..]);
    }
  }

  /** In every reachable state each mail is due at the latest one longest delay after its last write. */
  lemma ReachableWaits(c: Config, longest: nat, s: State)
    requires ValidConfig(c) && DelaysWithin(c, longest) && Reachable(c, s)
    ensures WaitsWithin(longest, s.table)
  {
    var clock: int, es: seq<Event> :| IsRun(c, Initial(clock), es) && After(c, Initial(clock), es) == s;
    InitialInv(c, clock);
    RunKeepsWaits(c, longest, Initial(clock), es);
  }
}
