/**
 Guarantees over whole runs: lifecycle, single flight, retry schedule, recovery of
 orphans, accounting and the concurrency bound. All hold for every run from an
 empty queue, with crashes, restarts, failed queue statements and lost tasks.
 */
module Guarantees {
  import opened Mails
  import opened Retry
  import opened QueueTable
  import opened Protocol
  import opened Safety

  lemma {:induction false} RunKeepsInv(c: Config, s: State, es: seq<Event>)
    requires ValidConfig(c) && Inv(c, s) && IsRun(c, s, es)
    ensures Inv(c, After(c, s, es))
    decreases es
  {
    if es != [] {
      StepKeepsInv(c, s, es[0]);
      RunKeepsInv(c, Next(c, s, es[0]), es[1..]);
    }
  }

  ghost predicate Reachable(c: Config, s: State) {
    exists clock: int, es: seq<Event> :: IsRun(c, Initial(clock), es) && After(c, Initial(clock), es) == s
  }

  lemma ReachableInv(c: Config, s: State)
    requires ValidConfig(c) && Reachable(c, s)
    ensures Inv(c, s)
  {
    var clock: int, es: seq<Event> :| IsRun(c, Initial(clock), es) && After(c, Initial(clock), es) == s;
    InitialInv(c, clock);
    RunKeepsInv(c, Initial(clock), es);
  }

  /** The clock never runs back. */
  lemma {:induction false} ClockForward(c: Config, s: State, es: seq<Event>)
    requires IsRun(c, s, es)
    ensures s.clock <= After(c, s, es).clock
    decreases es
  {
    if es != [] { ClockForward(c, Next(c, s, es[0]), es[1..]); }
  }

  // ----- lifecycle -----

  predicate Edge(a: MailStatus, b: MailStatus) {
    || ((a == Pending || a == Failed) && b == Sending)
    || (a == Sending && (b == Sent || b == Failed || b == Dead || b == Pending))
  }

  /** One step of a row's history. */
  predicate RowStep(m: Mail, m': Mail) {
    && m'.id == m.id && m'.content == m.content && m'.createdAt == m.createdAt
    && (m' == m || Edge(m.status, m'.status))
    && m'.attempts == m.attempts + (if m' != m && (m'.status == Failed || m'.status == Dead) then 1 else 0)
  }

  /** A row as insertion leaves it. */
  predicate Newborn(m: Mail) {
    && m.status == Pending && m.attempts == 0 && m.lastError == None
    && m.updatedAt == m.createdAt && m.nextAttemptAt == m.createdAt
  }

  lemma RequeueRowStep(m: Mail, now: int)
    requires m.status == Sending
    ensures RowStep(m, Requeued(m, now))
  {
  }

  lemma ClaimRowStep(s: State, reply: ClaimReply, id: MailId)
    requires HeadFetched(s) && id in s.table
    ensures id in ClaimNext(s, reply).table && RowStep(s.table[id], ClaimNext(s, reply).table[id])
  {
  }

  lemma RecordRowStep(c: Config, s: State, h: nat, id: MailId)
    requires ValidConfig(c) && Recordable(c, s, h) && id in s.table
    ensures id in RecordOutcome(c, s, h).table && RowStep(s.table[id], RecordOutcome(c, s, h).table[id])
  {
    var task := s.live[h];
    RecordedRowOk(c, s.clock, task.mail, s.table[task.mail.id], task.phase.result, task.phase.doneAt);
  }

  /** Steps that write no row leave the table as it is. */
  lemma QuietTable(c: Config, s: State, e: Event)
    requires Enabled(c, s, e) && !e.Enqueue? && !e.Reclaim? && !e.Recover? && !e.Claim? && !e.Record?
    ensures Next(c, s, e).table == s.table
  {
    if e.TaskLost? { TaskLostFinishes(c, s, e.handle); }
  }

  /** What the invariant says of the row a step is about to write. */
  ghost predicate WriteFacts(c: Config, s: State, e: Event) {
    && ValidConfig(c) && (e.Claim? ==> HeadFetched(s)) && (e.Record? ==> Recordable(c, s, e.handle))
  }

  lemma WriteFactsHold(c: Config, s: State, e: Event)
    requires ValidConfig(c) && Inv(c, s) && Enabled(c, s, e)
    ensures WriteFacts(c, s, e)
  {
    if e.Claim? { assert s.table[s.pc.rest[0].id] == s.pc.rest[0]; }
  }

  lemma RowFollowsLifecycle(c: Config, s: State, e: Event, id: MailId)
    requires WriteFacts(c, s, e) && Enabled(c, s, e) && id in s.table
    ensures id in Next(c, s, e).table && RowStep(s.table[id], Next(c, s, e).table[id])
  {
    if e.Claim? {
      ClaimRowStep(s, e.reply, id);
    } else if e.Record? {
      RecordRowStep(c, s, e.handle, id);
    } else if e.Reclaim? || e.Recover? {
      if s.table[id].status == Sending { RequeueRowStep(s.table[id], s.clock); }
    } else if !e.Enqueue? {
      QuietTable(c, s, e);
    }
  }

  /**
   Although the status write checks no old status: in every step from a reachable
   state every row stays, keeps its payload, and moves along an edge of the lifecycle.
   */
  lemma StepFollowsLifecycle(c: Config, s: State, e: Event, id: MailId)
    requires ValidConfig(c) && Inv(c, s) && Enabled(c, s, e) && id in s.table
    ensures id in Next(c, s, e).table && RowStep(s.table[id], Next(c, s, e).table[id])
  {
    WriteFactsHold(c, s, e);
    RowFollowsLifecycle(c, s, e, id);
  }

  lemma StepKeys(c: Config, s: State, e: Event)
    requires Enabled(c, s, e) && !e.Enqueue?
    ensures Next(c, s, e).table.Keys == s.table.Keys
  {
    if e.Record? {
      RecordFinishes(c, s, e.handle);
    } else if !e.Reclaim? && !e.Recover? && !e.Claim? {
      QuietTable(c, s, e);
    }
  }

  /** A row appears only by insertion, newborn. */
  lemma StepBirths(c: Config, s: State, e: Event, id: MailId)
    requires Enabled(c, s, e) && id !in s.table
    ensures id in Next(c, s, e).table ==>
      && e.Enqueue? && e.id == id && Newborn(Next(c, s, e).table[id])
      && Next(c, s, e).table[id].content == e.content && Next(c, s, e).table[id].createdAt == e.stamp
  {
    if !e.Enqueue? { StepKeys(c, s, e); }
  }

  /** The state after the first `i` events. */
  ghost function StateAt(c: Config, s: State, es: seq<Event>, i: nat): State
    requires IsRun(c, s, es) && i <= |es|
    decreases i
  {
    if i == 0 then s else StateAt(c, Next(c, s, es[0]), es[1..], i - 1)
  }

  lemma {:induction false} StateAtStep(c: Config, s: State, es: seq<Event>, i: nat)
    requires ValidConfig(c) && Inv(c, s) && IsRun(c, s, es) && i < |es|
    ensures Inv(c, StateAt(c, s, es, i)) && Enabled(c, StateAt(c, s, es, i), es[i])
    ensures StateAt(c, s, es, i + 1) == Next(c, StateAt(c, s, es, i), es[i])
    decreases i
  {
    if i > 0 {
      StepKeepsInv(c, s, es[0]);
      StateAtStep(c, Next(c, s, es[0]), es[1..], i - 1);
    }
  }

  /**
   Each row's history, over every run from the empty queue, is a path of the lifecycle:
   it is born pending and unattempted, and from then on every step of the run keeps it or
   moves it along an edge.
   */
  lemma HistoryIsPath(c: Config, clock: int, es: seq<Event>, i: nat, id: MailId)
    requires ValidConfig(c) && IsRun(c, Initial(clock), es) && i < |es|
    ensures id !in StateAt(c, Initial(clock), es, 0).table
    ensures var t, t' := StateAt(c, Initial(clock), es, i).table, StateAt(c, Initial(clock), es, i + 1).table;
            && (id in t ==> id in t' && RowStep(t[id], t'[id]))
            && (id !in t && id in t' ==>
                  Newborn(t'[id]) && es[i].Enqueue? && t'[id].content == es[i].content && t'[id].createdAt == es[i].stamp)
  {
    InitialInv(c, clock);
    StateAtStep(c, Initial(clock), es, i);
    var s := StateAt(c, Initial(clock), es, i);
    if id in s.table { StepFollowsLifecycle(c, s, es[i], id); } else { StepBirths(c, s, es[i], id); }
  }

  /** No row disappears or changes its payload; attempts never fall; a sent or dead row never changes again. */
  lemma {:induction false} RowsEndure(c: Config, s: State, es: seq<Event>, id: MailId)
    requires ValidConfig(c) && Inv(c, s) && IsRun(c, s, es) && id in s.table
    ensures var t := After(c, s, es).table;
            && id in t && t[id].content == s.table[id].content && t[id].createdAt == s.table[id].createdAt
            && t[id].attempts >= s.table[id].attempts
            && (Terminal(s.table[id]) ==> t[id] == s.table[id])
    decreases es
  {
    if es != [] {
      StepFollowsLifecycle(c, s, es[0], id);
      StepKeepsInv(c, s, es[0]);
      RowsEndure(c, Next(c, s, es[0]), es[1..], id);
    }
  }

  // ----- single flight -----

  /** At most one live task per mail; its row is in flight and counts the attempts of that delivery's copy. */
  lemma SingleFlight(c: Config, s: State)
    requires ValidConfig(c) && Reachable(c, s)
    ensures forall h, k :: h in s.live && k in s.live && s.live[h].mail.id == s.live[k].mail.id ==> h == k
    ensures forall h :: h in s.live ==>
      var m := s.live[h].mail;
      && m.id in s.table && s.table[m.id].status == Sending
      && s.table[m.id].attempts == m.attempts && s.table[m.id].content == m.content
  {
    ReachableInv(c, s);
  }

  /** Only requeueing statements write `pending` over another status. */
  lemma OnlyRequeueWritesPending(c: Config, s: State, e: Event, id: MailId)
    requires Enabled(c, s, e) && id in s.table && id in Next(c, s, e).table
    requires e != Reclaim(true) && e != Recover(true)
    requires Next(c, s, e).table[id].status == Pending
    ensures s.table[id].status == Pending
  {
    match e
    case TaskLost(h) => TaskLostFinishes(c, s, h);
    case Record(h) =>
      if id == s.live[h].mail.id {
        assert Written(s.table[id], WriteFor(c, s.live[h].mail, s.live[h].phase.result, s.live[h].phase.doneAt), s.clock).status != Pending;
      } else {
        RecordFinishes(c, s, h);
      }
    case _ =>
  }

  /** Whatever the lease, a row is put back to pending only while nothing is in flight and nothing claimed. */
  lemma ReclaimSparesFlights(c: Config, s: State, e: Event, id: MailId)
    requires ValidConfig(c) && Reachable(c, s) && Enabled(c, s, e) && id in s.table
    requires id in Next(c, s, e).table
    requires s.table[id].status == Sending && Next(c, s, e).table[id].status == Pending
    ensures (e == Reclaim(true) || e == Recover(true)) && s.live == map[] && !InTick(s.pc)
  {
    if e != Reclaim(true) && e != Recover(true) {
      OnlyRequeueWritesPending(c, s, e, id);
    } else {
      ReachableInv(c, s);
    }
  }

  // ----- retry schedule -----

  /**
   A mail with `n` recorded failures is next due no earlier than its creation plus
   the first `n` backoff delays; a buried mail sat out all delays but the last.
   */
  lemma RetryScheduleRespected(c: Config, s: State, id: MailId)
    requires ValidConfig(c) && Reachable(c, s) && id in s.table
    ensures var m := s.table[id];
            && 0 <= SatOut(m) < U32
            && m.createdAt + Schedule(c.delays, SatOut(m)) <= m.nextAttemptAt
            && (m.status == Sending || Terminal(m) ==>
                  m.createdAt + Schedule(c.delays, SatOut(m)) <= m.updatedAt <= s.clock)
  {
    ReachableInv(c, s);
  }

  /** No transport is called, and no exhausted mail buried, before the whole schedule has passed. */
  lemma NoEarlyAttempt(c: Config, s: State, h: nat)
    requires ValidConfig(c) && Reachable(c, s) && h in s.live
    ensures var m := s.live[h].mail;
            m.attempts < c.maxAttempts && m.createdAt + Schedule(c.delays, m.attempts) <= s.clock
  {
    ReachableInv(c, s);
    assert Held(s.table, s.live[h].mail);
  }

  // ----- orphans -----

  /** An in-flight row reclaimed as stale is due in the very tick that reclaims it. */
  lemma ReclaimedIsDue(c: Config, s: State, id: MailId)
    requires ValidConfig(c) && Reachable(c, s) && s.pc.Reclaiming? && id in s.table
    requires s.table[id].status == Sending && s.table[id].updatedAt < s.pc.now - c.lease
    ensures var s' := Next(c, s, Reclaim(true));
            && s'.pc == Fetching(s.pc.now)
            && id in s'.table && s'.table[id].status == Pending && s'.table[id].nextAttemptAt <= s'.pc.now
  {
    ReachableInv(c, s);
  }

  /** A tick reclaims exactly the rows in flight since before the lease, counted from its start; other rows it leaves alone. */
  lemma ReclaimExact(c: Config, s: State, id: MailId)
    requires s.pc.Reclaiming? && id in s.table
    ensures var t := Next(c, s, Reclaim(true)).table;
            && t.Keys == s.table.Keys
            && if s.table[id].status == Sending && s.table[id].updatedAt + c.lease < s.pc.now then
                 t[id] == s.table[id].(status := Pending, updatedAt := s.clock)
               else t[id] == s.table[id]
    ensures Next(c, s, Reclaim(false)).table == s.table
  {
  }

  /** A successful recovery leaves no row in flight, touches no other row, and all it frees can be delivered at once. */
  lemma RecoverFreesAll(c: Config, s: State)
    requires ValidConfig(c) && Reachable(c, s) && Enabled(c, s, Recover(true))
    ensures var t := Next(c, s, Recover(true)).table;
            && t.Keys == s.table.Keys
            && forall id :: id in t ==>
                 && t[id].status != Sending
                 && (if s.table[id].status == Sending then
                       && t[id] == s.table[id].(status := Pending, updatedAt := s.clock)
                       && t[id].nextAttemptAt <= s.clock
                     else t[id] == s.table[id])
  {
    ReachableInv(c, s);
    forall id | id in s.table && s.table[id].status == Sending ensures s.table[id].nextAttemptAt <= s.clock {
      assert RowOk(c, s.clock, s.table[id]);
    }
  }

  /** In every reachable state an error message is stored exactly with failed and dead mails. */
  lemma ErrorExactlyOnFailure(c: Config, s: State, id: MailId)
    requires ValidConfig(c) && Reachable(c, s) && id in s.table
    ensures s.table[id].lastError.Some? <==> s.table[id].status == Failed || s.table[id].status == Dead
  {
    ReachableInv(c, s);
  }

  // ----- accounting -----

  lemma AtMostOneCall(c: Config, s: State, id: MailId)
    requires FlightInv(c, s)
    ensures |LiveCalls(c, s.live, id)| <= 1
    ensures LiveCalls(c, s.live, id) != {} ==> id in s.table && s.table[id].status == Sending
  {
    var calls := LiveCalls(c, s.live, id);
    if calls != {} {
      var h :| h in calls;
      assert calls == {h};
    }
  }

  /**
   The stored attempt counter is exactly the number of recorded failures and
   refusals, stays in range, and every transport call is accounted for.
   */
  lemma AttemptsAccounted(c: Config, s: State, id: MailId)
    requires ValidConfig(c) && Reachable(c, s) && id in s.table
    ensures var m, b := s.table[id], BookOf(s.ledger, id);
            && m.attempts == b.failures + b.refusals
            && (if m.status == Dead then m.attempts <= c.maxAttempts else m.attempts < c.maxAttempts)
            && m.attempts < U32
            && b.sends == b.delivered + b.failures + b.lost + |LiveCalls(c, s.live, id)|
            && (b.delivered == 1 <==> m.status == Sent) && b.delivered <= 1
  {
    ReachableInv(c, s);
    assert BookOk(c, s, id);
  }

  /** A mail is handed to a transport at most `max_attempts` times, plus once for each outcome that was lost. */
  lemma SendsBounded(c: Config, s: State, id: MailId)
    requires ValidConfig(c) && Reachable(c, s)
    ensures BookOf(s.ledger, id).sends <= c.maxAttempts + BookOf(s.ledger, id).lost
  {
    ReachableInv(c, s);
    assert BookOk(c, s, id);
    AtMostOneCall(c, s, id);
  }

  // ----- concurrency -----

  ghost function LiveIds(live: map<nat, Task>): set<MailId> { set h | h in live :: live[h].mail.id }

  /** The mails in hand: claimed, and delivered or waiting for a permit. */
  ghost function InHand(s: State): set<MailId> {
    LiveIds(s.live) + (if s.pc.Waiting? then {s.pc.mail.id} else {})
  }

  ghost predicate OneEach(live: map<nat, Task>) {
    forall h, k :: h in live && k in live && live[h].mail.id == live[k].mail.id ==> h == k
  }

  lemma LiveIdsWithout(live: map<nat, Task>, k: nat)
    requires k in live && OneEach(live)
    ensures LiveIds(live) == LiveIds(live - {k}) + {live[k].mail.id} && live[k].mail.id !in LiveIds(live - {k})
  {
    var rest := live - {k};
    forall id ensures id in LiveIds(live) <==> id in LiveIds(rest) + {live[k].mail.id} {
      if id in LiveIds(live) {
        var h :| h in live && live[h].mail.id == id;
        assert h == k || (h in rest && rest[h].mail.id == id);
      }
      if id in LiveIds(rest) {
        var h :| h in rest && rest[h].mail.id == id;
        assert h in live && live[h].mail.id == id;
      }
    }
  }

  lemma {:induction false} LiveIdsCounted(live: map<nat, Task>)
    requires OneEach(live)
    ensures |LiveIds(live)| == |live|
    decreases |live|
  {
    if live == map[] {
      assert LiveIds(live) == {};
    } else {
      var k :| k in live;
      var rest := live - {k};
      assert rest.Keys == live.Keys - {k} && |rest| == |rest.Keys| && |live| == |live.Keys|;
      LiveIdsCounted(rest);
      LiveIdsWithout(live, k);
    }
  }

  lemma InHandHeld(c: Config, s: State)
    requires FlightInv(c, s)
    ensures OneEach(s.live) && (s.pc.Waiting? ==> s.pc.mail.id !in LiveIds(s.live))
    ensures forall id :: id in InHand(s) ==> id in s.table && s.table[id].status == Sending
    ensures !InTick(s.pc) ==> InHand(s) == {}
  {
  }

  /**
   Live deliveries stay within the limit. The mails in hand are as many as live deliveries
   and a waiting one: at most one above the limit, each with its row in flight.
   */
  lemma ConcurrencyBounded(c: Config, s: State)
    requires ValidConfig(c) && Reachable(c, s)
    ensures |s.live| <= c.concurrency
    ensures |InHand(s)| == |s.live| + (if s.pc.Waiting? then 1 else 0) <= c.concurrency + 1
    ensures forall id :: id in InHand(s) ==> id in s.table && s.table[id].status == Sending
    ensures InTick(s.pc) ==> s.permits == c.concurrency - |s.live|
    ensures !InTick(s.pc) ==> InHand(s) == {}
  {
    assert FlightInv(c, s) by { ReachableInv(c, s); }
    InHandHeld(c, s);
    LiveIdsCounted(s.live);
  }
}
