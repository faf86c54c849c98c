/** The queue's write statements as values, so that what several writers execute can be interleaved. */
module Statements {
  import opened Mails
  import opened QueueTable

  datatype Statement =
    | InsertRow(mail: Mail)
    | WriteStatus(id: MailId, status: MailStatus, lastError: Option<string>, bump: bool, next: Option<int>, now: int)
    | RequeueAll(now: int)
    | RequeueOlder(olderThan: int, now: int)

  function Execute(t: Table, st: Statement): Table {
    match st
    case InsertRow(mail) => Insert(t, mail)
    case WriteStatus(id, status, lastError, bump, next, now) => SetStatus(t, id, status, lastError, bump, next, now)
    case RequeueAll(now) => RequeueSending(t, now)
    case RequeueOlder(olderThan, now) => RequeueStale(t, olderThan, now)
  }

  function ExecuteAll(t: Table, sts: seq<Statement>): Table
    decreases sts
  {
    if sts == [] then t else ExecuteAll(Execute(t, sts[0]), sts[1..])
  }

  /** The same mail, whatever has become of its delivery. */
  predicate SameMail(m: Mail, m': Mail) {
    m'.id == m.id && m'.content == m.content && m'.createdAt == m.createdAt
  }

  /** One of the statements inserts under this id. */
  ghost predicate Inserts(sts: seq<Statement>, id: MailId) {
    exists k :: 0 <= k < |sts| && sts[k].InsertRow? && sts[k].mail.id == id
  }

  lemma ExecuteKeepsMail(t: Table, st: Statement, id: MailId)
    ensures id in t ==> id in Execute(t, st) && SameMail(t[id], Execute(t, st)[id])
    ensures id in Execute(t, st) && id !in t ==> st.InsertRow? && st.mail.id == id
  {
  }

  /** No writer removes a row or changes its mail; a new row was inserted. */
  lemma {:induction false} ExecuteAllKeepsMail(t: Table, sts: seq<Statement>, id: MailId)
    ensures id in t ==> id in ExecuteAll(t, sts) && SameMail(t[id], ExecuteAll(t, sts)[id])
    ensures id in ExecuteAll(t, sts) && id !in t ==> Inserts(sts, id)
    decreases sts
  {
    if sts != [] {
      var t1 := Execute(t, sts[0]);
      ExecuteKeepsMail(t, sts[0], id);
      ExecuteAllKeepsMail(t1, sts[1..], id);
      if id in ExecuteAll(t1, sts[1..]) && id !in t1 {
        var k :| 0 <= k < |sts[1..]| && sts[1..][k].InsertRow? && sts[1..][k].mail.id == id;
        assert sts[k + 1] == sts[1..][k];
      }
    }
  }
}
