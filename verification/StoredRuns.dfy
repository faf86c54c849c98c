/**
 The protocol on the SQLite queue. Every step of a run is at most one write statement, a
 fetch is a textual selection, and while the clock and the longest delay stay within the
 calendar every time can be written as text: so a whole run, executed statement by statement
 on rows of text, leaves the table of the protocol.
 */
module StoredRuns {
  import opened Mails
  import opened Statements
  import opened Rfc3339
  import opened SqliteQueues
  import opened Protocol
  import opened Safety
  import opened Guarantees
  import opened Timing

  /** The statement that ends a delivery. */
  function OutcomeStatement(id: MailId, w: Write, now: int): Statement {
    match w
    case ToSent => WriteStatus(id, Sent, None, false, None, now)
    case ToFailed(e, retryAt) => WriteStatus(id, Failed, Some(e), true, Some(retryAt), now)
    case ToDead(e) => WriteStatus(id, Dead, Some(e), true, None, now)
  }

  /** The statement a step executes, if any. */
  ghost function StatementOf(c: Config, s: State, e: Event): Option<Statement>
    requires Enabled(c, s, e)
  {
    match e
    case Enqueue(id, content, stamp) => Some(InsertRow(FromNew(content, stamp, id)))
    case Reclaim(ok) => if ok then Some(RequeueOlder(s.pc.now - c.lease, s.clock)) else None
    case Recover(ok) => if ok then Some(RequeueAll(s.clock)) else None
    case Claim(reply) =>
      if reply == Refused then None
      else Some(WriteStatus(s.pc.rest[0].id, Sending, None, false, None, s.clock))
    case Record(h) =>
      var m, phase := s.live[h].mail, s.live[h].phase;
      Some(OutcomeStatement(m.id, WriteFor(c, m, phase.result, phase.doneAt), s.clock))
    case _ => None
  }

  /** A step changes the table by its statement and in no other way. */
  lemma StepIsStatement(c: Config, s: State, e: Event)
    requires Enabled(c, s, e)
    ensures Next(c, s, e).table ==
            match StatementOf(c, s, e) case None => s.table case Some(st) => Execute(s.table, st)
  {
    if !e.Enqueue? && !e.Reclaim? && !e.Recover? && !e.Claim? && !e.Record? { QuietTable(c, s, e); }
  }

  ghost function StatementsOf(c: Config, s: State, es: seq<Event>): seq<Statement>
    requires IsRun(c, s, es)
    decreases es
  {
    if es == [] then []
    else
      var later := StatementsOf(c, Next(c, s, es[0]), es[1..]);
      match StatementOf(c, s, es[0]) case None => later case Some(st) => [st] + later
  }

  lemma {:induction false} RunIsStatements(c: Config, s: State, es: seq<Event>)
    requires IsRun(c, s, es)
    ensures After(c, s, es).table == ExecuteAll(s.table, StatementsOf(c, s, es))
    decreases es
  {
    if es != [] {
      StepIsStatement(c, s, es[0]);
      RunIsStatements(c, Next(c, s, es[0]), es[1..]);
      var later := StatementsOf(c, Next(c, s, es[0]), es[1..]);
      if StatementOf(c, s, es[0]).Some? {
        var st := StatementOf(c, s, es[0]).value;
        assert ([st] + later)[1..] == later;
      }
    }
  }

  // ----- within the calendar -----

  /** Nothing dates from before the calendar, nor does what is older than the lease. */
  ghost predicate Dated(c: Config, s: State) {
    && c.lease <= s.clock && (s.pc.Reclaiming? ==> c.lease <= s.pc.now)
    && forall id :: id in s.table ==> 0 <= s.table[id].createdAt
  }

  ghost predicate StampsDated(es: seq<Event>) {
    forall i :: 0 <= i < |es| && es[i].Enqueue? ==> 0 <= es[i].stamp
  }

  lemma StepKeepsDated(c: Config, s: State, e: Event)
    requires WriteFacts(c, s, e) && Dated(c, s) && Enabled(c, s, e) && (e.Enqueue? ==> 0 <= e.stamp)
    ensures Dated(c, Next(c, s, e))
  {
    var s' := Next(c, s, e);
    forall id | id in s'.table ensures 0 <= s'.table[id].createdAt {
      if id in s.table { RowFollowsLifecycle(c, s, e, id); } else { StepBirths(c, s, e, id); }
    }
  }

  /** A date between two of the calendar is in it. */
  lemma Between(a: int, x: int, b: int)
    requires 0 <= a <= x <= b && IsInstant(b)
    ensures IsInstant(x)
  {
  }

  /** Every row can be stored as text. */
  lemma RowsInRange(c: Config, longest: nat, s: State, id: MailId)
    requires ValidConfig(c) && TableInv(c, s) && WaitsWithin(longest, s.table) && Dated(c, s)
    requires IsInstant(s.clock + longest) && id in s.table
    ensures InRange(s.table[id])
  {
    var m := s.table[id];
    assert RowOk(c, s.clock, m);
    Between(0, m.createdAt, s.clock + longest);
    Between(0, m.updatedAt, s.clock + longest);
    Between(0, m.nextAttemptAt, s.clock + longest);
  }

  lemma OutcomeInTime(c: Config, longest: nat, s: State, h: nat)
    requires DelaysWithin(c, longest) && Recordable(c, s, h) && Dated(c, s) && IsInstant(s.clock + longest)
    ensures InTime(OutcomeStatement(s.live[h].mail.id,
                                    WriteFor(c, s.live[h].mail, s.live[h].phase.result, s.live[h].phase.doneAt), s.clock))
  {
    var m, phase := s.live[h].mail, s.live[h].phase;
    assert 0 <= m.createdAt <= m.nextAttemptAt <= phase.doneAt;
    Between(0, s.clock, s.clock + longest);
    var w := WriteFor(c, m, phase.result, phase.doneAt);
    if w.ToFailed? { Between(0, w.retryAt, s.clock + longest); }
  }

  /** Every statement of a step can be written as text. */
  lemma StatementInTime(c: Config, longest: nat, s: State, e: Event)
    requires DelaysWithin(c, longest) && WriteFacts(c, s, e) && Dated(c, s) && Enabled(c, s, e)
    requires (e.Enqueue? ==> 0 <= e.stamp) && (s.pc.Reclaiming? ==> s.pc.now <= s.clock) && IsInstant(s.clock + longest)
    ensures StatementOf(c, s, e).Some? ==> InTime(StatementOf(c, s, e).value)
  {
    Between(0, s.clock, s.clock + longest);
    if e.Record? {
      OutcomeInTime(c, longest, s, e.handle);
    } else if e.Enqueue? {
      Between(0, e.stamp, s.clock + longest);
    } else if e.Reclaim? {
      Between(0, s.pc.now - c.lease, s.clock + longest);
    }
  }

  /** All that a run up to the end of the calendar must satisfy at its start. */
  ghost predicate Storable(c: Config, longest: nat, s: State) {
    && ValidConfig(c) && DelaysWithin(c, longest) && Inv(c, s) && WaitsWithin(longest, s.table) && Dated(c, s)
  }

  lemma StepKeepsStorable(c: Config, longest: nat, s: State, e: Event)
    requires Storable(c, longest, s) && Enabled(c, s, e) && (e.Enqueue? ==> 0 <= e.stamp)
    ensures Storable(c, longest, Next(c, s, e))
    ensures IsInstant(s.clock + longest) && StatementOf(c, s, e).Some? ==> InTime(StatementOf(c, s, e).value)
  {
    WriteFactsHold(c, s, e);
    StepKeepsDated(c, s, e);
    StepKeepsWaits(c, longest, s, e);
    if IsInstant(s.clock + longest) { StatementInTime(c, longest, s, e); }
    StepKeepsInv(c, s, e);
  }

  lemma {:induction false} RunInTime(c: Config, longest: nat, s: State, es: seq<Event>)
    requires Storable(c, longest, s) && IsRun(c, s, es) && StampsDated(es)
    requires IsInstant(After(c, s, es).clock + longest)
    ensures AllInTime(StatementsOf(c, s, es)) && Storable(c, longest, After(c, s, es))
    decreases es
  {
    if es != [] {
      var s' := Next(c, s, es[0]);
      assert IsInstant(s.clock + longest) by {
        ClockForward(c, s, es);
        Between(0, s.clock + longest, After(c, s, es).clock + longest);
      }
      StepKeepsStorable(c, longest, s, es[0]);
      RunInTime(c, longest, s', es[1..]);
    }
  }

  /** A run that ends within the calendar, its longest delay included, keeps every row storable as text. */
  lemma RunStaysInRange(c: Config, longest: nat, clock: int, es: seq<Event>, id: MailId)
    requires ValidConfig(c) && DelaysWithin(c, longest) && c.lease <= clock
    requires IsRun(c, Initial(clock), es) && StampsDated(es)
    requires var s := After(c, Initial(clock), es); IsInstant(s.clock + longest) && id in s.table
    ensures InRange(After(c, Initial(clock), es).table[id])
  {
    InitialInv(c, clock);
    RunInTime(c, longest, Initial(clock), es);
    RowsInRange(c, longest, After(c, Initial(clock), es), id);
  }

  /** The run, executed on rows of text, leaves the table of the protocol. */
  method RunOnSqlite(q: SqliteQueue, sts: seq<Statement>, ghost c: Config, ghost longest: nat, ghost s: State,
                     ghost es: seq<Event>)
    requires q.Valid() && q.table == s.table
    requires Storable(c, longest, s) && IsRun(c, s, es) && StampsDated(es) && sts == StatementsOf(c, s, es)
    requires IsInstant(After(c, s, es).clock + longest)
    modifies q
    ensures q.Valid() && q.table == After(c, s, es).table
  {
    RunInTime(c, longest, s, es);
    RunIsStatements(c, s, es);
    q.WriteAll(sts);
  }

  /** A fetch of the protocol is an answer of the textual `SELECT` on rows that hold the table. */
  lemma FetchIsSelection(codec: Codec, rows: Rows, c: Config, s: State, batch: seq<Mail>)
    requires Faithful(codec) && Represents(codec, rows, s.table) && Enabled(c, s, Fetch(batch)) && IsInstant(s.pc.now)
    ensures IsSelection(rows, c.batchSize, codec.write(s.pc.now), seq(|batch|, i requires 0 <= i < |batch| => batch[i].id))
  {
    var ids := seq(|batch|, i requires 0 <= i < |batch| => batch[i].id);
    assert MailsOf(s.table, ids) == batch;
    TextSelectionIsFetch(codec, rows, s.table, c.batchSize, s.pc.now, ids);
  }
}
