/**
 What becomes of a mail is what its transport answered: the row each answer leaves, field by
 field, and over whole runs the answer behind every sent, failed and dead row.
 */
module Outcomes {
  import opened Mails
  import opened QueueTable
  import opened Protocol
  import opened Safety
  import opened Guarantees
  import opened TickRefinement

  /** The transport the mail asks for is known; if it asks for none, the default exists and is known. */
  predicate Deliverable(c: Config, m: Mail) {
    match m.content.transport
    case Some(name) => name in c.transports
    case None => c.defaultTransport.Some? && c.defaultTransport.value in c.transports
  }

  lemma DeliverableIff(c: Config, m: Mail)
    ensures HasTransport(c, m) <==> Deliverable(c, m)
  {
  }

  /** A spawned delivery calls its transport exactly when the mail is deliverable, and is refused exactly when not. */
  lemma RefusedIff(c: Config, s: State, h: nat)
    requires h in s.live && s.live[h].phase == Spawned
    ensures Enabled(c, s, BeginSend(h)) <==> Deliverable(c, s.live[h].mail)
    ensures Enabled(c, s, Refuse(h)) <==> !Deliverable(c, s.live[h].mail)
  {
    DeliverableIff(c, s.live[h].mail);
  }

  /** The row that an answer, given at `doneAt` and recorded at `now`, makes of a mail's row. */
  ghost predicate Leaves(c: Config, row: Mail, answer: SendResult, doneAt: int, now: int, row': Mail) {
    && row'.id == row.id && row'.content == row.content && row'.createdAt == row.createdAt && row'.updatedAt == now
    && if !Deliverable(c, row) then
         && row'.status == Dead && row'.lastError == Some("no transport available")
         && row'.attempts == row.attempts + 1 && row'.nextAttemptAt == row.nextAttemptAt
       else if answer == Delivered then
         && row'.status == Sent && row'.lastError == None
         && row'.attempts == row.attempts && row'.nextAttemptAt == row.nextAttemptAt
       else
         && row'.lastError == Some(answer.message) && row'.attempts == row.attempts + 1
         && if row.attempts + 1 >= c.maxAttempts then row'.status == Dead && row'.nextAttemptAt == row.nextAttemptAt
            else row'.status == Failed && row'.nextAttemptAt == doneAt + c.delays(row.attempts + 1)
  }

  lemma WrittenLeaves(c: Config, row: Mail, m: Mail, answer: SendResult, doneAt: int, now: int)
    requires row.attempts == m.attempts && row.content == m.content && m.attempts + 1 < U32
    ensures Leaves(c, row, answer, doneAt, now, Written(row, WriteFor(c, m, answer, doneAt), now))
  {
    DeliverableIff(c, m);
    assert (m.attempts + 1) % U32 == m.attempts + 1 && m.attempts % U32 == m.attempts;
  }

  /** Recording an answer leaves that row, and touches no other. */
  lemma RecordExact(c: Config, s: State, h: nat)
    requires ValidConfig(c) && Inv(c, s) && Enabled(c, s, Record(h))
    ensures var id, t' := s.live[h].mail.id, Next(c, s, Record(h)).table;
            && id in s.table && id in t' && t' == s.table[id := t'[id]]
            && Leaves(c, s.table[id], s.live[h].phase.result, s.live[h].phase.doneAt, s.clock, t'[id])
            && s.table[id].content == s.live[h].mail.content
  {
    WriteFactsHold(c, s, Record(h));
    RecordLeaves(c, s, h);
  }

  lemma RecordLeaves(c: Config, s: State, h: nat)
    requires ValidConfig(c) && Recordable(c, s, h)
    ensures var id, t' := s.live[h].mail.id, RecordOutcome(c, s, h).table;
            && id in t' && t' == s.table[id := t'[id]]
            && Leaves(c, s.table[id], s.live[h].phase.result, s.live[h].phase.doneAt, s.clock, t'[id])
            && s.table[id].content == s.live[h].mail.content
  {
    var task := s.live[h];
    WrittenLeaves(c, s.table[task.mail.id], task.mail, task.phase.result, task.phase.doneAt, s.clock);
  }

  // ----- the outcome of a tick -----

  /** What a fate makes of a fetched mail. */
  ghost predicate FateLeaves(c: Config, m: Mail, fate: Fate, row: Mail) {
    match fate
    case Untouched => row == m
    case Orphaned(claimAt) => row == m.(status := Sending, lastError := None, updatedAt := claimAt)
    case Settled(_, answer, doneAt, recordAt) => Leaves(c, m, answer, doneAt, recordAt, row)
  }

  lemma FinalRowLeaves(c: Config, m: Mail, fate: Fate)
    requires m.attempts + 1 < U32
    ensures FateLeaves(c, m, fate, FinalRow(c, m, fate))
  {
    if fate.Settled? {
      WrittenLeaves(c, Claimed(m, fate.claimAt), m, fate.result, fate.doneAt, fate.recordAt);
    }
  }

  /** After a tick, however interleaved, the row of each fetched mail is what the answer to that mail makes of it. */
  lemma TickOutcome(c: Config, s: State, batch: seq<Mail>, es: seq<Event>, i: nat)
    requires ValidConfig(c) && Inv(c, s) && Enabled(c, s, Fetch(batch)) && i < |batch|
    requires IsRun(c, Next(c, s, Fetch(batch)), es) && forall k :: 0 <= k < |es| ==> WithinTick(es[k])
    requires After(c, Next(c, s, Fetch(batch)), es).pc == Idle
    ensures var s', id := After(c, Next(c, s, Fetch(batch)), es), batch[i].id;
            && id in s'.fates && id in s'.table && FateLeaves(c, batch[i], s'.fates[id], s'.table[id])
  {
    var s', id := After(c, Next(c, s, Fetch(batch)), es), batch[i].id;
    ParallelTickIsSequential(c, s, batch, es);
    assert Listed(batch, id);
    forall k | 0 <= k < |batch| ensures batch[k].attempts + 1 < U32 && batch[k].id in s'.fates {
      assert RowOk(c, s.clock, s.table[batch[k].id]);
      assert Listed(batch, batch[k].id);
    }
    SequentialTickRows(c, s.table, batch, s'.fates);
    FinalRowLeaves(c, batch[i], s'.fates[id]);
  }

  // ----- the answers behind the rows -----

  /** Among the first `n` events the transport answered, at time `at`, the delivery of this mail. */
  ghost predicate Answered(c: Config, s: State, es: seq<Event>, n: nat, id: MailId, answer: SendResult, at: int)
    requires IsRun(c, s, es) && n <= |es|
  {
    exists i: nat :: i < n && AnswerAt(c, s, es, i, id, answer, at)
  }

  ghost predicate AnswerAt(c: Config, s: State, es: seq<Event>, i: nat, id: MailId, answer: SendResult, at: int)
    requires IsRun(c, s, es) && i < |es|
  {
    && es[i].SendDone? && es[i].result == answer
    && var x := StateAt(c, s, es, i);
       es[i].handle in x.live && x.live[es[i].handle].mail.id == id && x.clock == at
  }

  /** An answer waiting to be recorded was given. */
  ghost predicate TaskTold(c: Config, s: State, es: seq<Event>, n: nat, task: Task)
    requires IsRun(c, s, es) && n <= |es|
  {
    task.phase.Recording? && Deliverable(c, task.mail) ==>
      Answered(c, s, es, n, task.mail.id, task.phase.result, task.phase.doneAt)
  }

  /** A finished or failed row has its answer. */
  ghost predicate RowTold(c: Config, s: State, es: seq<Event>, n: nat, row: Mail)
    requires IsRun(c, s, es) && n <= |es|
  {
    match row.status
    case Sent => exists at :: Answered(c, s, es, n, row.id, Delivered, at)
    case Failed =>
      && row.lastError.Some? && 1 <= row.attempts < c.maxAttempts && Deliverable(c, row)
      && exists at :: Answered(c, s, es, n, row.id, Errored(row.lastError.value), at)
                      && row.nextAttemptAt == at + c.delays(row.attempts)
    case Dead =>
      if Deliverable(c, row) then
        && row.lastError.Some? && row.attempts == c.maxAttempts
        && exists at :: Answered(c, s, es, n, row.id, Errored(row.lastError.value), at)
      else
        row.lastError == Some("no transport available")
    case _ => true
  }

  lemma AnsweredLater(c: Config, s: State, es: seq<Event>, n: nat, id: MailId, answer: SendResult, at: int)
    requires IsRun(c, s, es) && n < |es| && Answered(c, s, es, n, id, answer, at)
    ensures Answered(c, s, es, n + 1, id, answer, at)
  {
  }

  lemma RowToldLater(c: Config, s: State, es: seq<Event>, n: nat, row: Mail)
    requires IsRun(c, s, es) && n < |es| && RowTold(c, s, es, n, row)
    ensures RowTold(c, s, es, n + 1, row)
  {
    match row.status
    case Sent =>
      var at :| Answered(c, s, es, n, row.id, Delivered, at);
      AnsweredLater(c, s, es, n, row.id, Delivered, at);
    case Failed =>
      var at :| Answered(c, s, es, n, row.id, Errored(row.lastError.value), at)
                && row.nextAttemptAt == at + c.delays(row.attempts);
      AnsweredLater(c, s, es, n, row.id, Errored(row.lastError.value), at);
    case Dead =>
      if Deliverable(c, row) {
        var at :| Answered(c, s, es, n, row.id, Errored(row.lastError.value), at);
        AnsweredLater(c, s, es, n, row.id, Errored(row.lastError.value), at);
      }
    case _ =>
  }

  /** A recorded answer tells the row it leaves. */
  lemma LeavesTold(c: Config, s: State, es: seq<Event>, n: nat, row: Mail, task: Task, now: int, row': Mail)
    requires IsRun(c, s, es) && n <= |es| && task.phase.Recording? && TaskTold(c, s, es, n, task)
    requires row.id == task.mail.id && row.content == task.mail.content && row.attempts < c.maxAttempts
    requires Leaves(c, row, task.phase.result, task.phase.doneAt, now, row')
    ensures RowTold(c, s, es, n, row')
  {
    assert Deliverable(c, row) == Deliverable(c, task.mail) == Deliverable(c, row');
    if Deliverable(c, row) {
      assert Answered(c, s, es, n, row'.id, task.phase.result, task.phase.doneAt);
    }
  }

  /** Only a recorded outcome settles a row. */
  lemma OthersDoNotSettle(c: Config, s: State, e: Event, id: MailId)
    requires Enabled(c, s, e) && !e.Record? && id in s.table && id in Next(c, s, e).table
    ensures var m, m' := s.table[id], Next(c, s, e).table[id];
            m' == m || m'.status == Sending || m'.status == Pending
  {
    if !e.Enqueue? && !e.Reclaim? && !e.Recover? && !e.Claim? { QuietTable(c, s, e); }
  }

  /** A live task either was there, waits to begin, or has just been answered. */
  lemma TaskStepTold(c: Config, s: State, e: Event, h: nat)
    requires Enabled(c, s, e) && h in Next(c, s, e).live && Next(c, s, e).live[h].phase.Recording?
    requires Deliverable(c, Next(c, s, e).live[h].mail)
    ensures h in s.live && s.live[h].mail == Next(c, s, e).live[h].mail
    ensures s.live[h] == Next(c, s, e).live[h] ||
            (e.SendDone? && e.handle == h && Next(c, s, e).live[h].phase == Recording(e.result, s.clock))
  {
    DeliverableIff(c, Next(c, s, e).live[h].mail);
    if e.Record? { RecordFinishes(c, s, e.handle); }
    if e.TaskLost? { TaskLostFinishes(c, s, e.handle); }
  }

  ghost predicate AllTold(c: Config, s: State, es: seq<Event>, n: nat)
    requires IsRun(c, s, es) && n <= |es|
  {
    var x := StateAt(c, s, es, n);
    && (forall h :: h in x.live ==> TaskTold(c, s, es, n, x.live[h]))
    && (forall id :: id in x.table ==> x.table[id].id == id && RowTold(c, s, es, n, x.table[id]))
  }

  lemma TasksToldNext(c: Config, s: State, es: seq<Event>, n: nat, h: nat)
    requires ValidConfig(c) && Inv(c, s) && IsRun(c, s, es) && n < |es| && AllTold(c, s, es, n)
    requires h in StateAt(c, s, es, n + 1).live
    ensures TaskTold(c, s, es, n + 1, StateAt(c, s, es, n + 1).live[h])
  {
    var x, e := StateAt(c, s, es, n), es[n];
    assert Enabled(c, x, e) && StateAt(c, s, es, n + 1) == Next(c, x, e) by { StateAtStep(c, s, es, n); }
    var task := Next(c, x, e).live[h];
    if task.phase.Recording? && Deliverable(c, task.mail) {
      TaskStepTold(c, x, e, h);
      if x.live[h] == task {
        assert TaskTold(c, s, es, n, x.live[h]);
        AnsweredLater(c, s, es, n, task.mail.id, task.phase.result, task.phase.doneAt);
      } else {
        assert AnswerAt(c, s, es, n, task.mail.id, task.phase.result, task.phase.doneAt);
      }
    }
  }

  lemma RowsToldNext(c: Config, s: State, es: seq<Event>, n: nat, id: MailId)
    requires ValidConfig(c) && Inv(c, s) && IsRun(c, s, es) && n < |es| && AllTold(c, s, es, n)
    requires id in StateAt(c, s, es, n + 1).table
    ensures StateAt(c, s, es, n + 1).table[id].id == id && RowTold(c, s, es, n + 1, StateAt(c, s, es, n + 1).table[id])
  {
    var x, e := StateAt(c, s, es, n), es[n];
    assert Inv(c, x) && Enabled(c, x, e) && StateAt(c, s, es, n + 1) == Next(c, x, e) by { StateAtStep(c, s, es, n); }
    WriteFactsHold(c, x, e);
    if id !in x.table {
      StepBirths(c, x, e, id);
    } else {
      assert RowTold(c, s, es, n, x.table[id]);
      RowFollowsLifecycle(c, x, e, id);
      RowToldLater(c, s, es, n, x.table[id]);
      if e.Record? {
        RecordedTold(c, s, es, n, id);
      } else {
        OthersDoNotSettle(c, x, e, id);
      }
    }
  }

  lemma RecordedTold(c: Config, s: State, es: seq<Event>, n: nat, id: MailId)
    requires IsRun(c, s, es) && n < |es| && AllTold(c, s, es, n) && es[n].Record?
    requires Enabled(c, StateAt(c, s, es, n), es[n]) && WriteFacts(c, StateAt(c, s, es, n), es[n])
    requires id in StateAt(c, s, es, n).table
    ensures var x := StateAt(c, s, es, n);
            id in RecordOutcome(c, x, es[n].handle).table
            && RowTold(c, s, es, n + 1, RecordOutcome(c, x, es[n].handle).table[id])
  {
    var x, h := StateAt(c, s, es, n), es[n].handle;
    RecordLeaves(c, x, h);
    var t' := RecordOutcome(c, x, h).table;
    assert RowTold(c, s, es, n, t'[id]) by {
      if id == x.live[h].mail.id {
        assert TaskTold(c, s, es, n, x.live[h]);
        LeavesTold(c, s, es, n, x.table[id], x.live[h], x.clock, t'[id]);
      } else {
        assert t'[id] == x.table[id];
      }
    }
    RowToldLater(c, s, es, n, t'[id]);
  }

  lemma {:induction false} RunTells(c: Config, clock: int, es: seq<Event>, n: nat)
    requires ValidConfig(c) && IsRun(c, Initial(clock), es) && n <= |es|
    ensures AllTold(c, Initial(clock), es, n)
  {
    if n > 0 {
      var s := Initial(clock);
      InitialInv(c, clock);
      RunTells(c, clock, es, n - 1);
      forall h | h in StateAt(c, s, es, n).live ensures TaskTold(c, s, es, n, StateAt(c, s, es, n).live[h]) {
        TasksToldNext(c, s, es, n - 1, h);
      }
      forall id | id in StateAt(c, s, es, n).table
        ensures StateAt(c, s, es, n).table[id].id == id && RowTold(c, s, es, n, StateAt(c, s, es, n).table[id])
      {
        RowsToldNext(c, s, es, n - 1, id);
      }
    }
  }

  /**
   Over every run from the empty queue: a row is sent only if its transport said so. A failed
   row carries the error its transport gave and is due the backoff of its attempts after that
   answer. A dead row of a deliverable mail carries such an error and has used up exactly all
   attempts; an undeliverable one says so.
   */
  lemma AnswersBehindRows(c: Config, clock: int, es: seq<Event>, n: nat, id: MailId)
    requires ValidConfig(c) && IsRun(c, Initial(clock), es) && n <= |es|
    requires id in StateAt(c, Initial(clock), es, n).table
    ensures RowTold(c, Initial(clock), es, n, StateAt(c, Initial(clock), es, n).table[id])
  {
    RunTells(c, clock, es, n);
  }
}
