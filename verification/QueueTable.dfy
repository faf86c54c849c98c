/**
 The queue contract on values: a table of mails keyed by id, and what each queue
 operation does to it when it takes effect. Times are compared as instants; that
 the stored table, which compares text, behaves like this one is proved in
 module SqliteQueues.
 */
module QueueTable {
  import opened Mails

  type Table = map<MailId, Mail>

  /** What the one status write of the queue makes of a row; it looks at no old status. */
  function Rewritten(m: Mail, status: MailStatus, lastError: Option<string>,
                     bump: bool, next: Option<int>, now: int): Mail
  {
    m.(status := status,
       lastError := lastError,
       updatedAt := now,
       attempts := (m.attempts + (if bump then 1 else 0)) % U32,
       nextAttemptAt := if next.Some? then next.value else m.nextAttemptAt)
  }

  function SetStatus(t: Table, id: MailId, status: MailStatus, lastError: Option<string>,
                     bump: bool, next: Option<int>, now: int): Table
  {
    if id in t then t[id := Rewritten(t[id], status, lastError, bump, next, now)] else t
  }

  function MarkSending(t: Table, id: MailId, now: int): Table {
    SetStatus(t, id, Sending, None, false, None, now)
  }

  function MarkSent(t: Table, id: MailId, now: int): Table {
    SetStatus(t, id, Sent, None, false, None, now)
  }

  function MarkFailed(t: Table, id: MailId, error: string, retryAt: int, now: int): Table {
    SetStatus(t, id, Failed, Some(error), true, Some(retryAt), now)
  }

  function MarkDead(t: Table, id: MailId, error: string, now: int): Table {
    SetStatus(t, id, Dead, Some(error), true, None, now)
  }

  /** Insertion fails on a taken id, which is the primary key. */
  function Insert(t: Table, m: Mail): Table {
    if m.id in t then t else t[m.id := m]
  }

  function Requeued(m: Mail, now: int): Mail { m.(status := Pending, updatedAt := now) }

  function RequeueSending(t: Table, now: int): Table {
    map id | id in t :: if t[id].status == Sending then Requeued(t[id], now) else t[id]
  }

  function RequeueStale(t: Table, olderThan: int, now: int): Table {
    map id | id in t ::
      if t[id].status == Sending && t[id].updatedAt < olderThan then Requeued(t[id], now) else t[id]
  }

  predicate Due(m: Mail, now: int) {
    Claimable(m) && m.nextAttemptAt <= now
  }

  ghost predicate DistinctIds(batch: seq<Mail>) {
    forall i, j :: 0 <= i < j < |batch| ==> batch[i].id != batch[j].id
  }

  ghost predicate Listed(batch: seq<Mail>, id: MailId) {
    exists i :: 0 <= i < |batch| && batch[i].id == id
  }

  /**
   A correct answer of `fetch_due`: due rows of the table, each once, oldest first,
   and a due row is left out only when the limit is reached and every row in the
   answer is at least as old. Rows with equal times may come in any order.
   */
  ghost predicate IsFetch(t: Table, limit: nat, now: int, batch: seq<Mail>) {
    && |batch| <= limit
    && (forall i :: 0 <= i < |batch| ==>
          batch[i].id in t && t[batch[i].id] == batch[i] && Due(batch[i], now))
    && DistinctIds(batch)
    && (forall i, j :: 0 <= i < j < |batch| ==> batch[i].nextAttemptAt <= batch[j].nextAttemptAt)
    && (forall id :: id in t && Due(t[id], now) && !Listed(batch, id) ==>
          && |batch| == limit
          && forall i :: 0 <= i < |batch| ==> batch[i].nextAttemptAt <= t[id].nextAttemptAt)
  }

  /** In plain words: pending or failed rows whose time has come, and a row left out is no older than any taken, the limit being reached. */
  lemma FetchAnswers(t: Table, limit: nat, now: int, batch: seq<Mail>)
    requires IsFetch(t, limit, now, batch)
    ensures forall m :: m in batch ==>
      m.id in t && t[m.id] == m && (m.status == Pending || m.status == Failed) && m.nextAttemptAt <= now
    ensures forall id :: id in t && (t[id].status == Pending || t[id].status == Failed) && t[id].nextAttemptAt <= now
                         && (forall m :: m in batch ==> m.id != id) ==>
      |batch| == limit && forall m :: m in batch ==> m.nextAttemptAt <= t[id].nextAttemptAt
  {
    forall id | Listed(batch, id) ensures exists m :: m in batch && m.id == id {
      var i :| 0 <= i < |batch| && batch[i].id == id;
      assert batch[i] in batch;
    }
  }

  ghost predicate Keyed(t: Table) {
    forall id :: id in t ==> t[id].id == id
  }

  lemma {:induction false} OldestOf(t: Table, ids: set<MailId>) returns (oldest: MailId)
    requires ids != {} && forall id :: id in ids ==> id in t
    ensures oldest in ids
    ensures forall id :: id in ids ==> t[oldest].nextAttemptAt <= t[id].nextAttemptAt
    decreases ids
  {
    var one :| one in ids;
    oldest := one;
    var rest := ids - {one};
    if rest != {} {
      var other := OldestOf(t, rest);
      if t[other].nextAttemptAt < t[one].nextAttemptAt { oldest := other; }
    }
    forall id | id in ids ensures t[oldest].nextAttemptAt <= t[id].nextAttemptAt {
      if id != one { assert id in rest; }
    }
  }

  /** Every table has a correct answer, for every limit and time. */
  lemma {:induction false} FetchExists(t: Table, limit: nat, now: int) returns (batch: seq<Mail>)
    requires Keyed(t)
    ensures IsFetch(t, limit, now, batch)
  {
    if limit == 0 {
      batch := [];
    } else {
      var shorter := FetchExists(t, limit - 1, now);
      var left := set id | id in t && Due(t[id], now) && !Listed(shorter, id);
      if left == {} {
        batch := shorter;
        assert forall id :: id in t && Due(t[id], now) && !Listed(shorter, id) ==> id in left;
      } else {
        var oldest := OldestOf(t, left);
        batch := shorter + [t[oldest]];
        forall id | id in t && Due(t[id], now) && !Listed(batch, id)
          ensures id in left
        {
          ListedExtends(shorter, t[oldest], id);
        }
        forall i | 0 <= i < |shorter| ensures shorter[i].id != oldest {
          assert Listed(shorter, shorter[i].id);
        }
      }
    }
  }

  lemma ListedExtends(batch: seq<Mail>, m: Mail, id: MailId)
    ensures Listed(batch + [m], id) <==> Listed(batch, id) || m.id == id
  {
    var longer := batch + [m];
    assert longer[|batch|] == m;
    assert forall i :: 0 <= i < |batch| ==> longer[i] == batch[i];
  }
}
