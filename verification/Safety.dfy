/**
 What every reachable state of the protocol satisfies. The queue's status write
 checks nothing, so all of this rests on the invariant `Inv`, which every step,
 crashes and failed statements included, preserves.
 */
module Safety {
  import opened Mails
  import opened Retry
  import opened QueueTable
  import opened Protocol

  // ----- the invariant -----

  /** Failed attempts whose backoff the mail has had to sit out. */
  function SatOut(m: Mail): int { if m.status == Dead then m.attempts - 1 else m.attempts }

  ghost predicate RowOk(c: Config, clock: int, m: Mail) {
    && (if m.status == Dead then 1 <= m.attempts <= c.maxAttempts else m.attempts < c.maxAttempts)
    && (m.lastError.Some? <==> m.status == Failed || m.status == Dead)
    && m.createdAt <= m.updatedAt <= clock
    && m.createdAt + Schedule(c.delays, SatOut(m)) <= m.nextAttemptAt
    && (m.status == Sending || Terminal(m) ==> m.nextAttemptAt <= m.updatedAt)
  }

  ghost predicate TableInv(c: Config, s: State) {
    forall id :: id in s.table ==> s.table[id].id == id && RowOk(c, s.clock, s.table[id])
  }

  function Rest(pc: Pc): seq<Mail> { if pc.Claiming? || pc.Waiting? then pc.rest else [] }

  predicate InTick(pc: Pc) { pc.Claiming? || pc.Waiting? || pc.Joining? }

  /** Mails still to be claimed are, in the table, exactly as they were fetched. */
  ghost predicate BatchInv(s: State) {
    var rest := Rest(s.pc);
    && DistinctIds(rest)
    && (s.pc.Reclaiming? || s.pc.Fetching? ==> s.pc.now <= s.clock)
    && forall i :: 0 <= i < |rest| ==>
         rest[i].id in s.table && s.table[rest[i].id] == rest[i] && Due(rest[i], s.clock)
  }

  function Claimed(m: Mail, claimAt: int): Mail {
    m.(status := Sending, lastError := None, updatedAt := claimAt)
  }

  /** The row of a claimed mail: in flight, otherwise as in the copy its delivery holds. */
  ghost predicate Held(t: Table, m: Mail) {
    m.id in t && Claimable(m) && t[m.id] == Claimed(m, t[m.id].updatedAt)
  }

  ghost predicate FlightInv(c: Config, s: State) {
    && (!InTick(s.pc) ==> s.live == map[])
    && (InTick(s.pc) ==> s.permits >= 0 && s.permits + |s.live| == c.concurrency)
    && (forall h :: h in s.live ==>
          && h < s.nextHandle
          && Held(s.table, s.live[h].mail)
          && !Listed(Rest(s.pc), s.live[h].mail.id)
          && (s.live[h].phase.Recording? ==>
                s.live[h].mail.nextAttemptAt <= s.live[h].phase.doneAt <= s.clock))
    && (forall h, k :: h in s.live && k in s.live && s.live[h].mail.id == s.live[k].mail.id ==> h == k)
    && (s.pc.Waiting? ==>
          && Held(s.table, s.pc.mail)
          && !Listed(s.pc.rest, s.pc.mail.id)
          && forall h :: h in s.live ==> s.live[h].mail.id != s.pc.mail.id)
  }

  ghost predicate BookOk(c: Config, s: State, id: MailId) {
    var b := BookOf(s.ledger, id);
    && b.sends == b.delivered + b.failures + b.lost + |LiveCalls(c, s.live, id)|
    && (if id in s.table then
          && s.table[id].attempts == b.failures + b.refusals
          && b.delivered == (if s.table[id].status == Sent then 1 else 0)
        else b == Book(0, 0, 0, 0, 0))
  }

  ghost predicate LedgerInv(c: Config, s: State) {
    forall id: MailId :: BookOk(c, s, id)
  }

  ghost predicate Inv(c: Config, s: State) {
    TableInv(c, s) && BatchInv(s) && FlightInv(c, s) && LedgerInv(c, s)
  }

  // ----- every step preserves it -----

  lemma InitialInv(c: Config, clock: int)
    ensures Inv(c, Initial(clock))
  {
    var s := Initial(clock);
    forall id: MailId ensures BookOk(c, s, id) { assert LiveCalls(c, s.live, id) == {}; }
  }

  lemma EnqueueKeepsTable(c: Config, s: State, m: Mail)
    requires TableInv(c, s) && RowOk(c, s.clock, m)
    ensures TableInv(c, s.(table := Insert(s.table, m)))
  {
  }

  lemma EnqueueKeepsFlight(c: Config, s: State, m: Mail)
    requires FlightInv(c, s) && BatchInv(s)
    ensures FlightInv(c, s.(table := Insert(s.table, m))) && BatchInv(s.(table := Insert(s.table, m)))
  {
  }

  lemma EnqueueKeepsLedger(c: Config, s: State, m: Mail)
    requires LedgerInv(c, s) && m.attempts == 0 && m.status == Pending
    ensures LedgerInv(c, s.(table := Insert(s.table, m)))
  {
    forall i: MailId ensures BookOk(c, s.(table := Insert(s.table, m)), i) { assert BookOk(c, s, i); }
  }

  lemma EnqueueKeepsInv(c: Config, s: State, id: MailId, content: NewMail, stamp: int)
    requires ValidConfig(c) && Inv(c, s) && stamp <= s.clock
    ensures Inv(c, s.(table := Insert(s.table, FromNew(content, stamp, id))))
  {
    var m := FromNew(content, stamp, id);
    assert RowOk(c, s.clock, m);
    EnqueueKeepsTable(c, s, m);
    EnqueueKeepsFlight(c, s, m);
    EnqueueKeepsLedger(c, s, m);
  }

  /** With nothing in flight and nothing to claim, sending rows may go back to pending. */
  lemma RequeueKeepsInv(c: Config, s: State, s': State)
    requires Inv(c, s) && s.live == map[] && Rest(s.pc) == [] && !s.pc.Waiting?
    requires s' == s.(pc := s'.pc, table := s'.table) && !InTick(s'.pc)
    requires s'.pc.Reclaiming? || s'.pc.Fetching? ==> s'.pc.now <= s.clock
    requires s'.table.Keys == s.table.Keys
    requires forall id :: id in s.table ==>
      s'.table[id] == s.table[id] || (s.table[id].status == Sending && s'.table[id] == Requeued(s.table[id], s.clock))
    ensures Inv(c, s')
  {
    forall i: MailId ensures BookOk(c, s', i) { assert BookOk(c, s, i); }
  }

  /** Rows keep what the books speak of: attempts, and whether the mail was sent. */
  lemma LedgerCarries(c: Config, s: State, s': State)
    requires LedgerInv(c, s) && s'.ledger == s.ledger && s'.table.Keys == s.table.Keys
    requires forall id :: id in s.table ==>
      && s'.table[id].attempts == s.table[id].attempts
      && (s'.table[id].status == Sent <==> s.table[id].status == Sent)
    requires forall id: MailId :: LiveCalls(c, s'.live, id) == LiveCalls(c, s.live, id)
    ensures LedgerInv(c, s')
  {
    forall i: MailId ensures BookOk(c, s', i) { assert BookOk(c, s, i); }
  }

  lemma ListedTail(batch: seq<Mail>, id: MailId)
    requires batch != []
    ensures Listed(batch, id) <==> batch[0].id == id || Listed(batch[1..], id)
  {
    assert forall i :: 0 <= i < |batch| - 1 ==> batch[1..][i] == batch[i + 1];
    if Listed(batch, id) && batch[0].id != id {
      var i :| 0 <= i < |batch| && batch[i].id == id;
      assert batch[1..][i - 1].id == id;
    }
  }

  /** The mail about to be claimed is in the table, as fetched. */
  ghost predicate HeadFetched(s: State) {
    && s.pc.Claiming? && s.pc.rest != []
    && s.pc.rest[0].id in s.table && s.table[s.pc.rest[0].id] == s.pc.rest[0] && Due(s.pc.rest[0], s.clock)
    && s.pc.rest[0].attempts < U32
  }

  lemma ClaimKeepsTable(c: Config, s: State, reply: ClaimReply)
    requires TableInv(c, s) && HeadFetched(s)
    ensures TableInv(c, ClaimNext(s, reply))
  {
    assert RowOk(c, s.clock, s.table[s.pc.rest[0].id]);
  }

  lemma ClaimKeepsBatch(s: State, reply: ClaimReply)
    requires BatchInv(s) && HeadFetched(s)
    ensures BatchInv(ClaimNext(s, reply))
  {
    var rest := s.pc.rest[1..];
    assert forall i :: 0 <= i < |rest| ==> rest[i] == s.pc.rest[i + 1];
  }

  lemma ClaimKeepsLedger(c: Config, s: State, reply: ClaimReply)
    requires LedgerInv(c, s) && HeadFetched(s)
    ensures LedgerInv(c, ClaimNext(s, reply))
  {
    LedgerCarries(c, s, ClaimNext(s, reply));
  }

  lemma ClaimKeepsFlight(c: Config, s: State, reply: ClaimReply)
    requires FlightInv(c, s) && HeadFetched(s) && DistinctIds(s.pc.rest)
    ensures FlightInv(c, ClaimNext(s, reply))
  {
    var mail, rest := s.pc.rest[0], s.pc.rest[1..];
    forall h | h in s.live ensures !Listed(rest, s.live[h].mail.id) && s.live[h].mail.id != mail.id {
      ListedTail(s.pc.rest, s.live[h].mail.id);
    }
    assert forall i :: 0 <= i < |rest| ==> rest[i] == s.pc.rest[i + 1];
  }

  lemma SpawnKeepsInv(c: Config, s: State)
    requires ValidConfig(c) && Inv(c, s) && Enabled(c, s, Spawn)
    ensures Inv(c, Next(c, s, Spawn))
  {
    var s' := Next(c, s, Spawn);
    assert s.nextHandle !in s.live;
    forall i: MailId ensures LiveCalls(c, s'.live, i) == LiveCalls(c, s.live, i) {}
    LedgerCarries(c, s, s');
    SpawnKeepsFlight(c, s);
  }

  lemma SpawnKeepsFlight(c: Config, s: State)
    requires FlightInv(c, s) && Enabled(c, s, Spawn)
    ensures FlightInv(c, Next(c, s, Spawn))
  {
    var s' := Next(c, s, Spawn);
    assert s.nextHandle !in s.live;
    assert |s'.live| == |s.live| + 1;
  }

  /** A task moves on; only the ledger entry of its own mail may follow. */
  lemma PhaseKeepsFlight(c: Config, s: State, h: nat, phase: Phase)
    requires FlightInv(c, s) && h in s.live
    requires phase.Recording? ==> s.live[h].mail.nextAttemptAt <= phase.doneAt == s.clock
    ensures FlightInv(c, SetPhase(s, h, phase))
  {
    var s' := SetPhase(s, h, phase);
    assert s'.live.Keys == s.live.Keys;
    assert |s'.live| == |s'.live.Keys| == |s.live.Keys| == |s.live|;
  }

  lemma LiveMailWasDue(c: Config, s: State, h: nat)
    requires TableInv(c, s) && FlightInv(c, s) && h in s.live
    ensures s.live[h].mail.nextAttemptAt <= s.clock
  {
    assert Held(s.table, s.live[h].mail);
  }

  lemma BeginSendKeepsInv(c: Config, s: State, h: nat)
    requires ValidConfig(c) && Inv(c, s) && Enabled(c, s, BeginSend(h))
    ensures Inv(c, Next(c, s, BeginSend(h)))
  {
    var s' := Next(c, s, BeginSend(h));
    assert FlightInv(c, s') by { PhaseKeepsFlight(c, s, h, InSend); }
    assert LedgerInv(c, s') by {
      forall i: MailId ensures BookOk(c, s', i) { BookAfterBegin(c, s, h, i); }
    }
  }

  lemma BookAfterBegin(c: Config, s: State, h: nat, id: MailId)
    requires BookOk(c, s, id) && Enabled(c, s, BeginSend(h)) && s.live[h].mail.id in s.table
    ensures BookOk(c, Next(c, s, BeginSend(h)), id)
  {
    var s' := Next(c, s, BeginSend(h));
    if id == s.live[h].mail.id {
      assert LiveCalls(c, s'.live, id) == LiveCalls(c, s.live, id) + {h};
    } else {
      assert LiveCalls(c, s'.live, id) == LiveCalls(c, s.live, id);
    }
  }

  lemma AnswerKeepsLedger(c: Config, s: State, h: nat, phase: Phase)
    requires LedgerInv(c, s) && h in s.live && phase.Recording?
    requires s.live[h].phase.InSend? || (s.live[h].phase.Spawned? && !HasTransport(c, s.live[h].mail))
    ensures LedgerInv(c, SetPhase(s, h, phase))
  {
    var s' := SetPhase(s, h, phase);
    forall i: MailId ensures LiveCalls(c, s'.live, i) == LiveCalls(c, s.live, i) {}
    LedgerCarries(c, s, s');
  }

  lemma AnswerKeepsInv(c: Config, s: State, h: nat, result: SendResult)
    requires Inv(c, s) && h in s.live
    requires s.live[h].phase.InSend? || (s.live[h].phase.Spawned? && !HasTransport(c, s.live[h].mail))
    ensures Inv(c, SetPhase(s, h, Recording(result, s.clock)))
  {
    LiveMailWasDue(c, s, h);
    PhaseKeepsFlight(c, s, h, Recording(result, s.clock));
    AnswerKeepsLedger(c, s, h, Recording(result, s.clock));
  }

  /** The row of a claimed mail, after its outcome is recorded, obeys the row rules. */
  lemma RecordedRowOk(c: Config, clock: int, m: Mail, row: Mail, result: SendResult, doneAt: int)
    requires ValidConfig(c) && RowOk(c, clock, row) && row == Claimed(m, row.updatedAt)
    requires m.nextAttemptAt <= doneAt <= clock
    ensures var w := WriteFor(c, m, result, doneAt);
            var row' := Written(row, w, clock);
            && RowOk(c, clock, row')
            && row'.attempts == row.attempts + (if w.ToSent? then 0 else 1)
  {
    assert (m.attempts + 1) % U32 == m.attempts + 1;
  }

  /** What the invariant says of a task about to record, and of its row. */
  ghost predicate Recordable(c: Config, s: State, h: nat) {
    && h in s.live && s.live[h].phase.Recording?
    && var m := s.live[h].mail;
       && Held(s.table, m) && RowOk(c, s.clock, s.table[m.id])
       && m.nextAttemptAt <= s.live[h].phase.doneAt <= s.clock && !Listed(Rest(s.pc), m.id)
  }

  /** The row it leaves. */
  lemma RecordedRow(c: Config, s: State, h: nat)
    requires ValidConfig(c) && Recordable(c, s, h)
    ensures var id, s' := s.live[h].mail.id, RecordOutcome(c, s, h);
            var w := WriteFor(c, s.live[h].mail, s.live[h].phase.result, s.live[h].phase.doneAt);
            && s'.table.Keys == s.table.Keys && s'.table == s.table[id := s'.table[id]]
            && s'.table[id].id == id && RowOk(c, s.clock, s'.table[id])
            && s'.table[id].attempts == s.table[id].attempts + (if w.ToSent? then 0 else 1)
            && (s'.table[id].status == Sent <==> w.ToSent?)
  {
    var task := s.live[h];
    RecordedRowOk(c, s.clock, task.mail, s.table[task.mail.id], task.phase.result, task.phase.doneAt);
  }

  lemma RecordKeepsTable(c: Config, s: State, h: nat)
    requires ValidConfig(c) && TableInv(c, s) && Recordable(c, s, h)
    ensures TableInv(c, RecordOutcome(c, s, h))
  {
    RecordedRow(c, s, h);
  }

  lemma FinishKeepsBatch(s: State, s': State, h: nat)
    requires BatchInv(s) && FinishesOnly(s, s', h) && !Listed(Rest(s.pc), s.live[h].mail.id)
    ensures BatchInv(s')
  {
    assert forall i :: 0 <= i < |Rest(s.pc)| ==> Listed(Rest(s.pc), Rest(s.pc)[i].id);
  }

  lemma FinishKeepsFlight(c: Config, s: State, s': State, h: nat)
    requires FlightInv(c, s) && FinishesOnly(s, s', h)
    ensures FlightInv(c, s')
  {
    assert s'.live.Keys == s.live.Keys - {h};
    assert |s'.live| == |s'.live.Keys| == |s.live.Keys| - 1 == |s.live| - 1;
  }

  lemma BookAfterRecord(c: Config, s: State, h: nat, id: MailId)
    requires ValidConfig(c) && BookOk(c, s, id) && Recordable(c, s, h)
    ensures BookOk(c, RecordOutcome(c, s, h), id)
  {
    RecordedRow(c, s, h);
    LiveCallsAfterFinish(c, s.live, h, id);
  }

  lemma RecordKeepsLedger(c: Config, s: State, h: nat)
    requires ValidConfig(c) && LedgerInv(c, s) && Recordable(c, s, h)
    ensures LedgerInv(c, RecordOutcome(c, s, h))
  {
    forall i: MailId ensures BookOk(c, RecordOutcome(c, s, h), i) {
      assert BookOk(c, s, i);
      BookAfterRecord(c, s, h, i);
    }
  }

  lemma LiveCallsAfterFinish(c: Config, live: map<nat, Task>, h: nat, id: MailId)
    requires h in live
    ensures |LiveCalls(c, live - {h}, id)| ==
            |LiveCalls(c, live, id)| - (if live[h].mail.id == id && CallingTransport(c, live[h]) then 1 else 0)
  {
    var before, after := LiveCalls(c, live, id), LiveCalls(c, live - {h}, id);
    assert after == before - {h};
  }

  /** Which fields a task's last step leaves alone. */
  ghost predicate FinishesOnly(s: State, s': State, h: nat) {
    && h in s.live && s'.live == s.live - {h} && s'.permits == s.permits + 1
    && s'.pc == s.pc && s'.clock == s.clock && s'.nextHandle == s.nextHandle
    && s'.table.Keys == s.table.Keys
    && forall id :: id in s.table && id != s.live[h].mail.id ==> s'.table[id] == s.table[id]
  }

  lemma TaskLostFinishes(c: Config, s: State, h: nat)
    requires h in s.live
    ensures FinishesOnly(s, LoseTask(c, s, h), h) && LoseTask(c, s, h).table == s.table
  {
  }

  lemma RecordFinishes(c: Config, s: State, h: nat)
    requires h in s.live && s.live[h].phase.Recording?
    ensures FinishesOnly(s, RecordOutcome(c, s, h), h)
  {
  }

  lemma TaskLostKeepsInv(c: Config, s: State, h: nat)
    requires ValidConfig(c) && Inv(c, s) && Enabled(c, s, TaskLost(h))
    ensures Inv(c, Next(c, s, TaskLost(h)))
  {
    var s' := LoseTask(c, s, h);
    TaskLostFinishes(c, s, h);
    FinishKeepsFlight(c, s, s', h);
    assert LedgerInv(c, s') by {
      forall i: MailId ensures BookOk(c, s', i) { BookAfterLoss(c, s, h, i); }
    }
    assert TableInv(c, s') && BatchInv(s');
  }

  lemma BookAfterLoss(c: Config, s: State, h: nat, id: MailId)
    requires BookOk(c, s, id) && h in s.live && s.live[h].mail.id in s.table
    ensures BookOk(c, LoseTask(c, s, h), id)
  {
    LiveCallsAfterFinish(c, s.live, h, id);
  }

  lemma CrashKeepsInv(c: Config, s: State)
    requires ValidConfig(c) && Inv(c, s) && Enabled(c, s, Crash)
    ensures Inv(c, Next(c, s, Crash))
  {
    var s' := Next(c, s, Crash);
    forall i: MailId ensures BookOk(c, s', i) {
      assert BookOk(c, s, i);
      assert LiveCalls(c, s'.live, i) == {};
    }
  }

  lemma FetchKeepsInv(c: Config, s: State, batch: seq<Mail>)
    requires ValidConfig(c) && Inv(c, s) && Enabled(c, s, Fetch(batch))
    ensures Inv(c, Next(c, s, Fetch(batch)))
  {
    LedgerCarries(c, s, Next(c, s, Fetch(batch)));
  }

  lemma RecordKeepsInv(c: Config, s: State, h: nat)
    requires ValidConfig(c) && Inv(c, s) && Enabled(c, s, Record(h))
    ensures Inv(c, RecordOutcome(c, s, h))
  {
    assert Recordable(c, s, h);
    RecordKeepsTable(c, s, h);
    RecordKeepsLedger(c, s, h);
    RecordFinishes(c, s, h);
    FinishKeepsBatch(s, RecordOutcome(c, s, h), h);
    FinishKeepsFlight(c, s, RecordOutcome(c, s, h), h);
  }

  lemma ClockKeepsInv(c: Config, s: State, to: int)
    requires Inv(c, s) && s.clock <= to
    ensures Inv(c, s.(clock := to))
  {
    var s' := s.(clock := to);
    assert TableInv(c, s') by {
      forall id | id in s.table ensures RowOk(c, to, s.table[id]) { assert RowOk(c, s.clock, s.table[id]); }
    }
    assert LedgerInv(c, s') by { LedgerCarries(c, s, s'); }
  }

  /** Steps of the dispatcher that write no row. */
  lemma QuietStepKeepsInv(c: Config, s: State, e: Event)
    requires Inv(c, s) && Enabled(c, s, e)
    requires e.TickStart? || e.FetchFailed? || e.ClaimsDone? || e.TickEnd? || e.Restart?
    ensures Inv(c, Next(c, s, e))
  {
    assert LedgerInv(c, Next(c, s, e)) by { LedgerCarries(c, s, Next(c, s, e)); }
  }

  lemma RequeueStepKeepsInv(c: Config, s: State, e: Event)
    requires ValidConfig(c) && Inv(c, s) && Enabled(c, s, e) && (e.Reclaim? || e.Recover?)
    ensures Inv(c, Next(c, s, e))
  {
    RequeueKeepsInv(c, s, Next(c, s, e));
  }

  lemma ClaimKeepsInv(c: Config, s: State, reply: ClaimReply)
    requires ValidConfig(c) && Inv(c, s) && Enabled(c, s, Claim(reply))
    ensures Inv(c, Next(c, s, Claim(reply)))
  {
    assert HeadFetched(s);
    ClaimKeepsTable(c, s, reply);
    ClaimKeepsBatch(s, reply);
    ClaimKeepsLedger(c, s, reply);
    ClaimKeepsFlight(c, s, reply);
  }

  lemma TaskStepKeepsInv(c: Config, s: State, e: Event)
    requires ValidConfig(c) && Inv(c, s) && Enabled(c, s, e)
    requires e.BeginSend? || e.Refuse? || e.SendDone? || e.Record? || e.TaskLost?
    ensures Inv(c, Next(c, s, e))
  {
    match e
    case BeginSend(h) => BeginSendKeepsInv(c, s, h);
    case Refuse(h) => AnswerKeepsInv(c, s, h, Errored(NO_TRANSPORT));
    case SendDone(h, result) => AnswerKeepsInv(c, s, h, result);
    case Record(h) => RecordKeepsInv(c, s, h);
    case TaskLost(h) => TaskLostKeepsInv(c, s, h);
  }

  /** Every step, whatever fails in it, preserves the invariant. */
  lemma StepKeepsInv(c: Config, s: State, e: Event)
    requires ValidConfig(c) && Inv(c, s) && Enabled(c, s, e)
    ensures Inv(c, Next(c, s, e))
  {
    match e
    case Advance(to) => ClockKeepsInv(c, s, to);
    case TickStart | FetchFailed | ClaimsDone | TickEnd | Restart => QuietStepKeepsInv(c, s, e);
    case Reclaim(_) | Recover(_) => RequeueStepKeepsInv(c, s, e);
    case Enqueue(id, content, stamp) => EnqueueKeepsInv(c, s, id, content, stamp);
    case Fetch(batch) => FetchKeepsInv(c, s, batch);
    case Claim(reply) => ClaimKeepsInv(c, s, reply);
    case Spawn => SpawnKeepsInv(c, s);
    case BeginSend(_) | Refuse(_) | SendDone(_, _) | Record(_) | TaskLost(_) => TaskStepKeepsInv(c, s, e);
    case Crash => CrashKeepsInv(c, s);
  }
}
