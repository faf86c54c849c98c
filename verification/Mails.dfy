/**
 The mail a relay stores and delivers: addresses, the submitted payload, the
 five delivery states and the queued mail with its delivery metadata.

 Times are instants: whole nanoseconds since 0000-01-01T00:00:00Z.
 */
module Mails {

  /** A queue-wide unique mail number (a UUID in the relay). */
  type MailId = nat

  datatype Option<+T> = None | Some(value: T) {
    predicate IsFailure() { None? }

    function PropagateFailure<U>(): Option<U>
      requires None?
    {
      None
    }

    function Extract(): T
      requires Some?
    {
      value
    }
  }

  datatype Error =
    | InvalidMail(reason: string)
    | NotFound(id: MailId)
    | QueueError(reason: string)

  datatype Result<+T> = Ok(value: T) | Err(error: Error)

  datatype Address = Address(email: string, name: Option<string>)

  datatype MailStatus = Pending | Sending | Sent | Failed | Dead

  datatype NewMail = NewMail(
    from: Address,
    to: seq<Address>,
    subject: string,
    body: string,
    transport: Option<string>)

  /** A queued mail. `content` is the payload, which no queue operation rewrites. */
  datatype Mail = Mail(
    id: MailId,
    content: NewMail,
    status: MailStatus,
    attempts: nat,
    lastError: Option<string>,
    createdAt: int,
    updatedAt: int,
    nextAttemptAt: int)

  const U32 := 0x1_0000_0000
  const NANOS := 1_000_000_000

  /** Terminal states: nothing is left to do for the mail. */
  predicate Terminal(m: Mail) {
    m.status == Sent || m.status == Dead
  }

  /** States from which the dispatcher may claim a mail. */
  predicate Claimable(m: Mail) {
    m.status == Pending || m.status == Failed
  }

  /** The Unicode White_Space property, which string trimming uses. */
  predicate Whitespace(c: char) {
    var n := c as int;
    || 0x09 <= n <= 0x0D || n == 0x20 || n == 0x85 || n == 0xA0 || n == 0x1680
    || 0x2000 <= n <= 0x200A || n == 0x2028 || n == 0x2029 || n == 0x202F
    || n == 0x205F || n == 0x3000
  }

  /** The property's twenty-five characters, by code point. */
  lemma WhitespaceListed(c: char)
    ensures var listed := {9, 10, 11, 12, 13, 32, 133, 160, 5760, 8192, 8193, 8194, 8195, 8196, 8197, 8198, 8199, 8200,
                           8201, 8202, 8232, 8233, 8239, 8287, 12288};
            Whitespace(c) <==> c as int in listed
  {
  }

  /** The first place at or after `i` whose character stays. */
  function FirstKept(s: string, drop: char -> bool, i: nat): (k: nat)
    requires i <= |s|
    ensures i <= k <= |s| && (k < |s| ==> !drop(s[k]))
    decreases |s| - i
  {
    if i < |s| && drop(s[i]) then FirstKept(s, drop, i + 1) else i
  }

  /** The place after the last character before `n` that stays. */
  function LastKept(s: string, drop: char -> bool, n: nat): (k: nat)
    requires n <= |s|
    ensures k <= n && (k > 0 ==> !drop(s[k - 1]))
  {
    if n > 0 && drop(s[n - 1]) then LastKept(s, drop, n - 1) else n
  }

  function TrimStart(s: string, drop: char -> bool): (r: string) { s[FirstKept(s, drop, 0)..] }

  function TrimEnd(s: string, drop: char -> bool): (r: string) { s[..LastKept(s, drop, |s|)] }

  function Trim(s: string): (r: string) {
    TrimEnd(TrimStart(s, Whitespace), Whitespace)
  }

  /** `NewMail::validate`: the first failing check, in the order the relay makes them. */
  function Validate(m: NewMail): (r: Result<()>) {
    if Trim(m.from.email) == [] then Err(InvalidMail("sender address is empty"))
    else if m.to == [] then Err(InvalidMail("no recipients given"))
    else if Trim(m.subject) == [] then Err(InvalidMail("subject is empty"))
    else Ok(())
  }

  lemma {:induction false} SkippedAreDropped(s: string, drop: char -> bool, i: nat)
    requires i <= |s|
    ensures forall j :: i <= j < FirstKept(s, drop, i) ==> drop(s[j])
    decreases |s| - i
  {
    if i < |s| && drop(s[i]) { SkippedAreDropped(s, drop, i + 1); }
  }

  /** Trimming leaves nothing exactly when there is nothing but white space. */
  lemma TrimEmptyIff(s: string)
    ensures Trim(s) == [] <==> forall c :: c in s ==> Whitespace(c)
  {
    var k := FirstKept(s, Whitespace, 0);
    var t := s[k..];
    SkippedAreDropped(s, Whitespace, 0);
    if k < |s| {
      assert s[k] in s && t[0] == s[k];
      var n := LastKept(t, Whitespace, |t|);
      DroppedBehind(t, Whitespace, |t|);
      assert n > 0;
    }
  }

  lemma {:induction false} DroppedBehind(s: string, drop: char -> bool, n: nat)
    requires n <= |s|
    ensures forall j :: LastKept(s, drop, n) <= j < n ==> drop(s[j])
  {
    if n > 0 && drop(s[n - 1]) { DroppedBehind(s, drop, n - 1); }
  }

  /** A text shows something. */
  ghost predicate Visible(s: string) { exists c :: c in s && !Whitespace(c) }

  /** A payload is accepted exactly when sender and subject show something and someone is to receive it; otherwise the first want is named. */
  lemma ValidateAccepts(m: NewMail)
    ensures Validate(m) ==
            if !Visible(m.from.email) then Err(InvalidMail("sender address is empty"))
            else if m.to == [] then Err(InvalidMail("no recipients given"))
            else if !Visible(m.subject) then Err(InvalidMail("subject is empty"))
            else Ok(())
  {
    TrimEmptyIff(m.from.email);
    TrimEmptyIff(m.subject);
  }

  /** `Mail::from_new`: a fresh mail is pending, unattempted and due at once. */
  function FromNew(content: NewMail, now: int, id: MailId): (m: Mail) {
    Mail(id, content, Pending, 0, None, now, now, now)
  }
}
