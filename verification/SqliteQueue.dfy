/**
 The SQLite queue: rows with textual status and textual timestamps, changed in place
 by single statements. Read through `Table`, every operation is the one of module
 QueueTable, although the statements compare strings. SQL evaluation itself is given:
 a statement is applied as a whole, and `SELECT` hands over the chosen ids.
 */
module SqliteQueues {
  import opened Mails
  import opened QueueTable
  import opened Statements
  import opened Rfc3339
  import opened Texts

  // ----- rows -----

  /** Addresses are kept as JSON text by the relay; here they are kept as they are. */
  datatype StoredRow = StoredRow(
    content: NewMail,
    status: string,
    attempts: int,
    lastError: Option<string>,
    createdAt: string,
    updatedAt: string,
    nextAttemptAt: string)

  type Rows = map<MailId, StoredRow>

  function StatusToStr(status: MailStatus): string {
    match status
    case Pending => "pending"
    case Sending => "sending"
    case Sent => "sent"
    case Failed => "failed"
    case Dead => "dead"
  }

  function StatusFromStr(raw: string): Result<MailStatus> {
    if raw == "pending" then Ok(Pending)
    else if raw == "sending" then Ok(Sending)
    else if raw == "sent" then Ok(Sent)
    else if raw == "failed" then Ok(Failed)
    else if raw == "dead" then Ok(Dead)
    else Err(QueueError("unknown status: " + raw))
  }

  /** The stored words are distinct and read back; any other word is refused. */
  lemma StatusRoundTrip(status: MailStatus, raw: string)
    ensures StatusFromStr(StatusToStr(status)) == Ok(status)
    ensures StatusFromStr(raw).Ok? ==> StatusToStr(StatusFromStr(raw).value) == raw
    ensures StatusToStr(Pending) == "pending" && StatusToStr(Sending) == "sending" && StatusToStr(Sent) == "sent"
    ensures StatusToStr(Failed) == "failed" && StatusToStr(Dead) == "dead"
  {
    assert |StatusToStr(Pending)| == 7 && |StatusToStr(Sending)| == 7 && StatusToStr(Pending)[0] != StatusToStr(Sending)[0];
    assert |StatusToStr(Sent)| == 4 && |StatusToStr(Dead)| == 4 && StatusToStr(Sent)[0] != StatusToStr(Dead)[0];
    assert |StatusToStr(Failed)| == 6;
  }

  /** Reads a row; the stored 64-bit attempt counter is cut to 32 bits. */
  function RowToMail(codec: Codec, id: MailId, row: StoredRow): Result<Mail> {
    match StatusFromStr(row.status)
    case Err(e) => Err(e)
    case Ok(status) =>
      var created, updated, next := codec.read(row.createdAt), codec.read(row.updatedAt), codec.read(row.nextAttemptAt);
      if created.None? || updated.None? || next.None? then Err(QueueError("decode timestamp"))
      else Ok(Mail(id, row.content, status, row.attempts % U32, row.lastError,
                   created.value, updated.value, next.value))
  }

  ghost predicate InRange(m: Mail) {
    m.attempts < U32 && IsInstant(m.createdAt) && IsInstant(m.updatedAt) && IsInstant(m.nextAttemptAt)
  }

  function MailToRow(codec: Codec, m: Mail): StoredRow
    requires InRange(m)
  {
    StoredRow(m.content, StatusToStr(m.status), m.attempts, m.lastError,
              codec.write(m.createdAt), codec.write(m.updatedAt), codec.write(m.nextAttemptAt))
  }

  /** A mail survives storage unchanged. */
  lemma RowRoundTrip(codec: Codec, m: Mail)
    requires Faithful(codec) && InRange(m)
    ensures RowToMail(codec, m.id, MailToRow(codec, m)) == Ok(m)
  {
    StatusRoundTrip(m.status, "");
  }

  // ----- what the queue ever writes -----

  ghost predicate IsTime(codec: Codec, s: string, n: int) { IsInstant(n) && s == codec.write(n) }

  ghost predicate StoredAs(codec: Codec, row: StoredRow, m: Mail) {
    && row.content == m.content && row.lastError == m.lastError
    && row.status == StatusToStr(m.status) && m.attempts == row.attempts % U32
    && IsTime(codec, row.createdAt, m.createdAt) && IsTime(codec, row.updatedAt, m.updatedAt)
    && IsTime(codec, row.nextAttemptAt, m.nextAttemptAt)
  }

  lemma StoredReads(codec: Codec, id: MailId, row: StoredRow, m: Mail)
    requires Faithful(codec) && StoredAs(codec, row, m)
    ensures RowToMail(codec, id, row) == Ok(m.(id := id))
  {
    StatusRoundTrip(m.status, "");
  }

  /** The stored rows hold exactly the mails of the table. */
  ghost predicate Represents(codec: Codec, rows: Rows, t: Table) {
    rows.Keys == t.Keys && forall id :: id in t ==> t[id].id == id && StoredAs(codec, rows[id], t[id])
  }

  /** Reading every row back gives the table, so rows represent one table only. */
  lemma RepresentedReads(codec: Codec, rows: Rows, t: Table)
    requires Faithful(codec) && Represents(codec, rows, t)
    ensures forall id :: id in rows ==> RowToMail(codec, id, rows[id]) == Ok(t[id])
  {
    forall id | id in rows ensures RowToMail(codec, id, rows[id]) == Ok(t[id]) {
      assert id in t;
      StoredReads(codec, id, rows[id], t[id]);
    }
  }

  // ----- textual selection -----

  predicate DueText(row: StoredRow, now: string) {
    (row.status == "pending" || row.status == "failed") && !TextLess(now, row.nextAttemptAt)
  }

  /** An answer to the textual `SELECT ... WHERE ... ORDER BY next_attempt_at LIMIT`. */
  ghost predicate IsSelection(rows: Rows, limit: nat, now: string, ids: seq<MailId>) {
    && |ids| <= limit
    && (forall i :: 0 <= i < |ids| ==> ids[i] in rows && DueText(rows[ids[i]], now))
    && (forall i, j :: 0 <= i < j < |ids| ==> ids[i] != ids[j])
    && (forall i, j :: 0 <= i < j < |ids| ==> !TextLess(rows[ids[j]].nextAttemptAt, rows[ids[i]].nextAttemptAt))
    && (forall id :: id in rows && DueText(rows[id], now) && id !in ids ==>
          && |ids| == limit
          && forall i :: 0 <= i < |ids| ==> !TextLess(rows[id].nextAttemptAt, rows[ids[i]].nextAttemptAt))
  }

  ghost function MailsOf(t: Table, ids: seq<MailId>): (batch: seq<Mail>)
    requires forall i :: 0 <= i < |ids| ==> ids[i] in t
    ensures |batch| == |ids| && forall i :: 0 <= i < |ids| ==> batch[i] == t[ids[i]]
  {
    seq(|ids|, i requires 0 <= i < |ids| => t[ids[i]])
  }

  lemma DueTextIsDue(codec: Codec, row: StoredRow, m: Mail, now: Instant)
    requires Faithful(codec) && StoredAs(codec, row, m)
    ensures DueText(row, codec.write(now)) <==> Due(m, now)
  {
    StatusRoundTrip(m.status, "");
  }

  lemma EarlierText(codec: Codec, row1: StoredRow, m1: Mail, row2: StoredRow, m2: Mail)
    requires Faithful(codec) && StoredAs(codec, row1, m1) && StoredAs(codec, row2, m2)
    ensures TextLess(row1.nextAttemptAt, row2.nextAttemptAt) <==> m1.nextAttemptAt < m2.nextAttemptAt
  {
  }

  /** Tests on rows and on mails that agree row by row. */
  ghost predicate SameTests(rows: Rows, t: Table, nowText: string, now: int) {
    && rows.Keys == t.Keys && (forall id :: id in t ==> t[id].id == id)
    && (forall id :: id in rows ==> (DueText(rows[id], nowText) <==> Due(t[id], now)))
    && (forall a, b :: a in rows && b in rows ==>
          (TextLess(rows[a].nextAttemptAt, rows[b].nextAttemptAt) <==> t[a].nextAttemptAt < t[b].nextAttemptAt))
  }

  lemma RepresentedTests(codec: Codec, rows: Rows, t: Table, now: Instant)
    requires Faithful(codec) && Represents(codec, rows, t)
    ensures SameTests(rows, t, codec.write(now), now)
  {
    forall id | id in rows ensures DueText(rows[id], codec.write(now)) <==> Due(t[id], now) {
      DueTextIsDue(codec, rows[id], t[id], now);
    }
    forall a, b | a in rows && b in rows
      ensures TextLess(rows[a].nextAttemptAt, rows[b].nextAttemptAt) <==> t[a].nextAttemptAt < t[b].nextAttemptAt
    {
      EarlierText(codec, rows[a], t[a], rows[b], t[b]);
    }
  }

  lemma SameTestsSameAnswers(rows: Rows, t: Table, limit: nat, nowText: string, now: int, ids: seq<MailId>)
    requires SameTests(rows, t, nowText, now) && forall i :: 0 <= i < |ids| ==> ids[i] in rows
    ensures IsSelection(rows, limit, nowText, ids) <==> IsFetch(t, limit, now, MailsOf(t, ids))
  {
    var batch := MailsOf(t, ids);
    forall id ensures Listed(batch, id) <==> id in ids {
      if id in ids {
        var i :| 0 <= i < |ids| && ids[i] == id;
        assert batch[i].id == id;
      }
    }
  }

  /** Selecting by text is selecting by time: the two statements have the same answers. */
  lemma TextSelectionIsFetch(codec: Codec, rows: Rows, t: Table, limit: nat, now: Instant, ids: seq<MailId>)
    requires Faithful(codec) && Represents(codec, rows, t) && forall i :: 0 <= i < |ids| ==> ids[i] in rows
    ensures IsSelection(rows, limit, codec.write(now), ids) <==> IsFetch(t, limit, now, MailsOf(t, ids))
  {
    RepresentedTests(codec, rows, t, now);
    SameTestsSameAnswers(rows, t, limit, codec.write(now), now, ids);
  }

  lemma SendingText(codec: Codec, row: StoredRow, m: Mail, olderThan: Instant)
    requires Faithful(codec) && StoredAs(codec, row, m)
    ensures row.status == "sending" <==> m.status == Sending
    ensures TextLess(row.updatedAt, codec.write(olderThan)) <==> m.updatedAt < olderThan
  {
    StatusRoundTrip(m.status, "");
  }

  /** The columns written by the status `UPDATE`. */
  function UpdatedRow(codec: Codec, row: StoredRow, status: MailStatus, lastError: Option<string>, bump: bool,
                      next: Option<Instant>, now: Instant): StoredRow
  {
    row.(status := StatusToStr(status),
         lastError := lastError,
         updatedAt := codec.write(now),
         attempts := row.attempts + (if bump then 1 else 0),
         nextAttemptAt := if next.Some? then codec.write(next.value) else row.nextAttemptAt)
  }

  /** The stored 64-bit counter and the 32-bit one users see step together. */
  lemma UpdatedRowStores(codec: Codec, row: StoredRow, m: Mail, status: MailStatus, lastError: Option<string>,
                         bump: bool, next: Option<Instant>, now: Instant)
    requires StoredAs(codec, row, m)
    ensures StoredAs(codec, UpdatedRow(codec, row, status, lastError, bump, next, now),
                     Rewritten(m, status, lastError, bump, next, now))
  {
  }

  lemma ReplaceRow(codec: Codec, rows: Rows, t: Table, id: MailId, row: StoredRow, m: Mail)
    requires Represents(codec, rows, t) && StoredAs(codec, row, m) && m.id == id
    ensures Represents(codec, rows[id := row], t[id := m])
  {
  }

  lemma InsertRepresents(codec: Codec, rows: Rows, t: Table, m: Mail)
    requires Faithful(codec) && Represents(codec, rows, t) && InRange(m)
    ensures Represents(codec, rows[m.id := MailToRow(codec, m)], t[m.id := m])
  {
    assert StoredAs(codec, MailToRow(codec, m), m);
    ReplaceRow(codec, rows, t, m.id, MailToRow(codec, m), m);
  }

  lemma StatusUpdate(codec: Codec, rows: Rows, t: Table, id: MailId, status: MailStatus, lastError: Option<string>,
                     bump: bool, next: Option<Instant>, now: Instant)
    requires Represents(codec, rows, t) && id in rows
    ensures Represents(codec, rows[id := UpdatedRow(codec, rows[id], status, lastError, bump, next, now)],
                       SetStatus(t, id, status, lastError, bump, next, now))
  {
    UpdatedRowStores(codec, rows[id], t[id], status, lastError, bump, next, now);
    ReplaceRow(codec, rows, t, id, UpdatedRow(codec, rows[id], status, lastError, bump, next, now),
               Rewritten(t[id], status, lastError, bump, next, now));
  }

  function SendingRows(rows: Rows): set<MailId> { set id | id in rows && rows[id].status == "sending" }

  function StaleRows(rows: Rows, olderThan: string): set<MailId> {
    set id | id in rows && rows[id].status == "sending" && TextLess(rows[id].updatedAt, olderThan)
  }

  lemma RequeueHits(codec: Codec, rows: Rows, t: Table, olderThan: Instant)
    requires Faithful(codec) && Represents(codec, rows, t)
    ensures SendingRows(rows) == set id | id in t && t[id].status == Sending
    ensures StaleRows(rows, codec.write(olderThan)) ==
            set id | id in t && t[id].status == Sending && t[id].updatedAt < olderThan
  {
    forall id | id in rows
      ensures rows[id].status == "sending" <==> t[id].status == Sending
      ensures TextLess(rows[id].updatedAt, codec.write(olderThan)) <==> t[id].updatedAt < olderThan
    {
      assert id in t;
      SendingText(codec, rows[id], t[id], olderThan);
    }
  }

  lemma RequeuedTables(t: Table, sending: set<MailId>, stale: set<MailId>, olderThan: int, now: int)
    requires sending == set id | id in t && t[id].status == Sending
    requires stale == set id | id in t && t[id].status == Sending && t[id].updatedAt < olderThan
    ensures RequeueSending(t, now) == map id | id in t :: if id in sending then Requeued(t[id], now) else t[id]
    ensures RequeueStale(t, olderThan, now) == map id | id in t :: if id in stale then Requeued(t[id], now) else t[id]
  {
  }

  function RequeuedRow(codec: Codec, row: StoredRow, now: Instant): StoredRow {
    row.(status := "pending", updatedAt := codec.write(now))
  }

  lemma RequeuedRowStores(codec: Codec, row: StoredRow, m: Mail, now: Instant)
    requires StoredAs(codec, row, m)
    ensures StoredAs(codec, RequeuedRow(codec, row, now), Requeued(m, now))
  {
  }

  lemma RequeueRepresents(codec: Codec, rows: Rows, t: Table, hit: set<MailId>, now: Instant)
    requires Represents(codec, rows, t)
    ensures Represents(codec,
                       map id | id in rows :: if id in hit then RequeuedRow(codec, rows[id], now) else rows[id],
                       map id | id in t :: if id in hit then Requeued(t[id], now) else t[id])
  {
    forall id | id in t && id in hit ensures StoredAs(codec, RequeuedRow(codec, rows[id], now), Requeued(t[id], now)) {
      RequeuedRowStores(codec, rows[id], t[id], now);
    }
  }

  lemma FetchedMails(codec: Codec, rows: Rows, t: Table, limit: nat, now: Instant, ids: seq<MailId>, mails: seq<Mail>)
    requires Faithful(codec) && Represents(codec, rows, t) && IsSelection(rows, limit, codec.write(now), ids)
    requires |mails| == |ids| && forall k :: 0 <= k < |ids| ==> ids[k] in t && mails[k] == t[ids[k]]
    ensures IsFetch(t, limit, now, mails)
  {
    TextSelectionIsFetch(codec, rows, t, limit, now, ids);
    assert mails == MailsOf(t, ids);
  }

  // ----- the queue object -----

  /** The times in a statement can be written as text. */
  ghost predicate InTime(st: Statement) {
    match st
    case InsertRow(mail) => InRange(mail)
    case WriteStatus(_, _, _, _, next, now) => IsInstant(now) && (next.Some? ==> IsInstant(next.value))
    case RequeueAll(now) => IsInstant(now)
    case RequeueOlder(olderThan, now) => IsInstant(olderThan) && IsInstant(now)
  }

  ghost predicate AllInTime(sts: seq<Statement>) { forall k :: 0 <= k < |sts| ==> InTime(sts[k]) }

  class SqliteQueue {
    const codec: Codec
    var rows: Rows
    /** The queue as its users see it. */
    ghost var table: Table

    ghost predicate Valid()
      reads this
    {
      Faithful(codec) && Represents(codec, rows, table)
    }

    /** Times are written as RFC 3339 text. */
    constructor ()
      ensures codec == Rfc3339Codec() && Valid() && table == map[]
    {
      Rfc3339Faithful();
      codec := Rfc3339Codec();
      rows := map[];
      table := map[];
    }

    /**
     `INSERT`; a taken id violates the primary key. `fault` stands for any other failure of
     the statement; when `lost`, the row is stored but an error is reported.
     */
    method Enqueue(mail: Mail, fault: bool, lost: bool) returns (r: Result<Mail>)
      requires Valid() && InRange(mail)
      modifies this
      ensures Valid()
      ensures r == (if fault || lost || mail.id in old(table) then Err(QueueError("insert failed")) else Ok(mail))
      ensures table == if fault then old(table) else Insert(old(table), mail)
    {
      if fault || mail.id in rows { return Err(QueueError("insert failed")); }
      InsertRepresents(codec, rows, table, mail);
      rows := rows[mail.id := MailToRow(codec, mail)];
      table := table[mail.id := mail];
      r := if lost then Err(QueueError("insert failed")) else Ok(mail);
    }

    /** The single `UPDATE ... WHERE id = ?`; a missing row is reported, an old status never looked at. */
    method SetStatus(id: MailId, status: MailStatus, lastError: Option<string>, bump: bool,
                     next: Option<Instant>, now: Instant, fault: bool) returns (r: Result<()>)
      requires Valid()
      modifies this
      ensures Valid()
      ensures r == (if fault then Err(QueueError("update failed"))
                    else if id !in old(table) then Err(NotFound(id)) else Ok(()))
      ensures table == if fault then old(table)
                       else QueueTable.SetStatus(old(table), id, status, lastError, bump, next, now)
    {
      if fault {
        r := Err(QueueError("update failed"));
      } else if id !in rows {
        r := Err(NotFound(id));
      } else {
        StatusUpdate(codec, rows, table, id, status, lastError, bump, next, now);
        table := QueueTable.SetStatus(table, id, status, lastError, bump, next, now);
        rows := rows[id := UpdatedRow(codec, rows[id], status, lastError, bump, next, now)];
        r := Ok(());
      }
    }

    method MarkSending(id: MailId, now: Instant, fault: bool) returns (r: Result<()>)
      requires Valid()
      modifies this
      ensures Valid() && (r.Ok? <==> !fault && id in old(table))
      ensures table == if fault then old(table) else QueueTable.MarkSending(old(table), id, now)
    {
      r := SetStatus(id, Sending, None, false, None, now, fault);
    }

    method MarkSent(id: MailId, now: Instant, fault: bool) returns (r: Result<()>)
      requires Valid()
      modifies this
      ensures Valid() && (r.Ok? <==> !fault && id in old(table))
      ensures table == if fault then old(table) else QueueTable.MarkSent(old(table), id, now)
    {
      r := SetStatus(id, Sent, None, false, None, now, fault);
    }

    method MarkFailed(id: MailId, error: string, retryAt: Instant, now: Instant, fault: bool) returns (r: Result<()>)
      requires Valid()
      modifies this
      ensures Valid() && (r.Ok? <==> !fault && id in old(table))
      ensures table == if fault then old(table) else QueueTable.MarkFailed(old(table), id, error, retryAt, now)
    {
      r := SetStatus(id, Failed, Some(error), true, Some(retryAt), now, fault);
    }

    method MarkDead(id: MailId, error: string, now: Instant, fault: bool) returns (r: Result<()>)
      requires Valid()
      modifies this
      ensures Valid() && (r.Ok? <==> !fault && id in old(table))
      ensures table == if fault then old(table) else QueueTable.MarkDead(old(table), id, error, now)
    {
      r := SetStatus(id, Dead, Some(error), true, None, now, fault);
    }

    /** Rewrites the given in-flight rows to pending. */
    method Requeue(hit: set<MailId>, now: Instant)
      requires Valid() && forall id :: id in hit ==> id in rows && rows[id].status == "sending"
      modifies this
      ensures Valid()
      ensures table == map id | id in old(table) :: if id in hit then Requeued(old(table)[id], now) else old(table)[id]
    {
      RequeueRepresents(codec, rows, table, hit, now);
      rows := map id | id in rows :: if id in hit then RequeuedRow(codec, rows[id], now) else rows[id];
      table := map id | id in table :: if id in hit then Requeued(table[id], now) else table[id];
    }

    /** `UPDATE ... WHERE status = 'sending'`. */
    method RequeueSending(now: Instant, fault: bool) returns (r: Result<nat>)
      requires Valid()
      modifies this
      ensures Valid() && (r.Ok? <==> !fault)
      ensures r.Ok? ==> r.value == |set id | id in old(table) && old(table)[id].status == Sending|
      ensures table == if fault then old(table) else QueueTable.RequeueSending(old(table), now)
    {
      if fault { return Err(QueueError("update failed")); }
      RequeueHits(codec, rows, table, now);
      RequeuedTables(table, SendingRows(rows), StaleRows(rows, codec.write(now)), now, now);
      var hit := SendingRows(rows);
      Requeue(hit, now);
      r := Ok(|hit|);
    }

    /** `UPDATE ... WHERE status = 'sending' AND updated_at < ?`, the times compared as text. */
    method RequeueStaleSending(olderThan: Instant, now: Instant, fault: bool) returns (r: Result<nat>)
      requires Valid()
      modifies this
      ensures Valid() && (r.Ok? <==> !fault)
      ensures r.Ok? ==>
        r.value == |set id | id in old(table) && old(table)[id].status == Sending && old(table)[id].updatedAt < olderThan|
      ensures table == if fault then old(table) else RequeueStale(old(table), olderThan, now)
    {
      if fault { return Err(QueueError("update failed")); }
      RequeueHits(codec, rows, table, olderThan);
      RequeuedTables(table, SendingRows(rows), StaleRows(rows, codec.write(olderThan)), olderThan, now);
      var hit := StaleRows(rows, codec.write(olderThan));
      Requeue(hit, now);
      r := Ok(|hit|);
    }

    method ReadRows(ids: seq<MailId>) returns (mails: seq<Mail>)
      requires Valid() && forall i :: 0 <= i < |ids| ==> ids[i] in rows
      ensures |mails| == |ids| && forall k :: 0 <= k < |ids| ==> ids[k] in table && mails[k] == table[ids[k]]
    {
      mails := [];
      for i := 0 to |ids|
        invariant |mails| == i && forall k :: 0 <= k < i ==> mails[k] == table[ids[k]]
      {
        StoredReads(codec, ids[i], rows[ids[i]], table[ids[i]]);
        mails := mails + [RowToMail(codec, ids[i], rows[ids[i]]).value];
      }
    }

    /** Reads the selected rows; `ids` is what the textual `SELECT` answered. */
    method FetchDue(limit: nat, now: Instant, ids: seq<MailId>, fault: bool) returns (r: Result<seq<Mail>>)
      requires Valid() && IsSelection(rows, limit, codec.write(now), ids)
      ensures r.Ok? <==> !fault
      ensures r.Ok? ==> IsFetch(table, limit, now, r.value)
      ensures r.Ok? ==> |r.value| == |ids| && forall k :: 0 <= k < |ids| ==> ids[k] in table && r.value[k] == table[ids[k]]
    {
      if fault { return Err(QueueError("select failed")); }
      var mails := ReadRows(ids);
      FetchedMails(codec, rows, table, limit, now, ids, mails);
      r := Ok(mails);
    }

    method Get(id: MailId, fault: bool) returns (r: Result<Mail>)
      requires Valid()
      ensures r == (if fault then Err(QueueError("select failed"))
                    else if id in table then Ok(table[id]) else Err(NotFound(id)))
    {
      if fault { return Err(QueueError("select failed")); }
      if id !in rows { return Err(NotFound(id)); }
      RepresentedReads(codec, rows, table);
      r := RowToMail(codec, id, rows[id]);
    }

    /** Any one write statement, executed on the textual rows, does to the table what it says. */
    method Write(st: Statement)
      requires Valid() && InTime(st)
      modifies this
      ensures Valid() && table == Execute(old(table), st)
    {
      match st
      case InsertRow(mail) => var _ := Enqueue(mail, false, false);
      case WriteStatus(id, status, lastError, bump, next, now) =>
        var due: Option<Instant> := if next.Some? then Some(next.value as Instant) else None;
        var _ := SetStatus(id, status, lastError, bump, due, now, false);
      case RequeueAll(now) => var _ := RequeueSending(now, false);
      case RequeueOlder(olderThan, now) => var _ := RequeueStaleSending(olderThan, now, false);
    }

    method WriteAll(sts: seq<Statement>)
      requires Valid() && AllInTime(sts)
      modifies this
      ensures Valid() && table == ExecuteAll(old(table), sts)
    {
      for i := 0 to |sts|
        invariant Valid() && ExecuteAll(table, sts[i..]) == ExecuteAll(old(table), sts)
      {
        assert sts[i..][0] == sts[i] && sts[i..][1..] == sts[i + 1..];
        Write(sts[i]);
      }
    }
  }
}
