/**
 From a received message to queue rows and a reply: the payload, its route, the candidate
 rows, and the agreement between the reply and what the queue has gained.
 */
module Ingress {
  import opened Mails
  import opened QueueTable
  import opened Subject
  import opened Routing
  import opened Sessions
  import opened Statements
  import opened Fanout

  datatype Parsed = Parsed(subject: Option<string>, body: Option<string>)

  /** Configuration and the library functions the handler calls. */
  datatype Context = Context(
    gate: Gate,
    extractName: string -> Option<string>,
    parse: Bytes -> Option<Parsed>,
    lossyText: Bytes -> string,
    subject: SubjectConfig,
    routing: RoutingConfig)

  datatype Reply =
    | Okay
    | ServiceNotAvailable
    | AuthenticationRequired
    | AuthAccepted
    | InvalidCredentials
    | TemporaryAuthFailure
    | Rejected(error: Error)
    | SenderNotPermitted
    | InternalError

  // ----- from message to payloads -----

  function StripBrackets(raw: string): string {
    Trim(TrimEnd(TrimStart(Trim(raw), (c: char) => c == '<'), (c: char) => c == '>'))
  }

  /** The payload: parsed message, envelope addresses, labelled subject. A known identity beats the subject pattern. */
  function BuildNewMail(ctx: Context, s: Session): Result<NewMail> {
    match ctx.parse(s.data)
    case None => Err(InvalidMail("could not parse message"))
    case Some(parsed) =>
      var original := if parsed.subject.Some? then parsed.subject.value else "";
      var body := if parsed.body.Some? then parsed.body.value else ctx.lossyText(s.data);
      var sender := if s.identity.Some? then s.identity else ctx.extractName(original);
      Ok(NewMail(
        Address(StripBrackets(s.from), None),
        seq(|s.recipients|, i requires 0 <= i < |s.recipients| => Address(StripBrackets(s.recipients[i]), None)),
        if sender.Some? then Render(ctx.subject, sender.value, original) else original,
        body,
        None))
  }

  /** Where the message goes; without active routing to the default transport and the original recipients. */
  function RouteOf(routing: RoutingConfig, sender: string): Route {
    if IsActive(routing) then Resolve(routing, sender) else Deliver([RouteTarget("", None)])
  }

  function PayloadFor(base: NewMail, target: RouteTarget): NewMail {
    base.(transport := if target.transport != "" then Some(target.transport) else base.transport,
          to := if target.recipients.Some? then target.recipients.value else base.to)
  }

  /**
   What the environment supplies for one target: a drawn id, the time, whether the statement
   fails, and whether it is stored while an error is reported.
   */
  datatype Attempt = Attempt(id: MailId, now: int, fault: bool, lost: bool)

  type Attempts = nat -> Attempt

  function CandidateFor(base: NewMail, target: RouteTarget, a: Attempt): Candidate {
    var payload := PayloadFor(base, target);
    Candidate(FromNew(payload, a.now, a.id), Validate(payload).Ok? && !a.fault, !a.lost)
  }

  function Candidates(base: NewMail, targets: seq<RouteTarget>, tries: Attempts): (cs: seq<Candidate>)
    ensures |cs| == |targets|
    ensures forall i: nat :: i < |targets| ==> cs[i] == CandidateFor(base, targets[i], tries(i))
  {
    seq(|targets|, i requires 0 <= i < |targets| => CandidateFor(base, targets[i], tries(i)))
  }

  // ----- the end of the data, as a whole -----

  /** The rows to be of a built message, or the refusal. */
  function PlanFor(routing: RoutingConfig, built: Result<NewMail>, tries: Attempts): (p: (Reply, seq<Candidate>)) {
    match built
    case Err(e) => (Rejected(e), [])
    case Ok(base) =>
      match RouteOf(routing, base.from.email)
      case Reject => (SenderNotPermitted, [])
      case Deliver(targets) => (Okay, Candidates(base, targets, tries))
  }

  /** The message of a session. */
  function Plan(ctx: Context, s: Session, tries: Attempts): (p: (Reply, seq<Candidate>)) {
    PlanFor(ctx.routing, BuildNewMail(ctx, s), tries)
  }

  /** The table once all candidates have been tried, other writers going on meanwhile. */
  function TableAfter(plan: (Reply, seq<Candidate>), t: Table, others: Others): Table {
    Stored(t, plan.1, others, |plan.1|)
  }

  function ReplyTo(plan: (Reply, seq<Candidate>), t: Table, others: Others): Reply {
    if plan.0 == Okay && Accepted(t, plan.1, others, |plan.1|) == 0 then InternalError else plan.0
  }

  /** No row to be is addressed to a transport named `reject`, in any letter case, once routing is active. */
  lemma PlanAvoidsReject(ctx: Context, s: Session, tries: Attempts)
    requires IsActive(ctx.routing)
    ensures forall c :: c in Plan(ctx, s, tries).1 && c.row.content.transport.Some? ==>
              !IsReject(c.row.content.transport.value)
  {
    var built := BuildNewMail(ctx, s);
    if built.Ok? { RejectedIff(ctx.routing, built.value.from.email); }
  }

  lemma PlanSound(ctx: Context, s: Session, tries: Attempts)
    ensures forall c :: c in Plan(ctx, s, tries).1 ==>
              c.row.status == Pending && c.row.attempts == 0 && (c.sound ==> Validate(c.row.content).Ok?)
    ensures Plan(ctx, s, tries).0 != Okay ==> Plan(ctx, s, tries).1 == []
    ensures forall i: nat :: i < |Plan(ctx, s, tries).1| ==> Plan(ctx, s, tries).1[i].heard == !tries(i).lost
  {
  }

  /** What a stored target looks like: the message's sender, subject and body, under the target's transport and recipients. */
  lemma TargetStored(base: NewMail, targets: seq<RouteTarget>, tries: Attempts, t: Table, others: Others, i: nat)
    requires i < |targets| && Wins(t, Candidates(base, targets, tries), others, i)
    ensures var t' := Stored(t, Candidates(base, targets, tries), others, |targets|);
            && tries(i).id !in t && tries(i).id in t'
            && var row := t'[tries(i).id];
               && (row.content.from, row.content.subject, row.content.body) == (base.from, base.subject, base.body)
               && row.content.transport == (if targets[i].transport == "" then base.transport else Some(targets[i].transport))
               && row.content.to == (if targets[i].recipients.Some? then targets[i].recipients.value else base.to)
               && row.createdAt == tries(i).now
  {
    var cs := Candidates(base, targets, tries);
    WinnerStays(t, cs, others, i, |targets|);
    if tries(i).id in t {
      RowsStay(t, cs, others, 0, i, tries(i).id);
      ExecuteAllKeepsMail(Stored(t, cs, others, i), others(i), tries(i).id);
    }
  }

  /** The queue holds this mail. */
  predicate Holds(t: Table, m: Mail) { m.id in t && SameMail(m, t[m.id]) }

  /** The reply is OK exactly when an insertion took effect and was reported. */
  lemma ReplyAgrees(plan: (Reply, seq<Candidate>), t: Table, others: Others)
    requires plan.0 != Okay ==> plan.1 == []
    ensures ReplyTo(plan, t, others) == Okay <==>
            exists i: nat :: i < |plan.1| && Wins(t, plan.1, others, i) && plan.1[i].heard
    ensures (forall i: nat :: i < |plan.1| ==> !Wins(t, plan.1, others, i)) ==>
            TableAfter(plan, t, others) == Alone(t, others, |plan.1|)
  {
    AcceptedIff(t, plan.1, others, |plan.1|);
    if forall i: nat :: i < |plan.1| ==> !Wins(t, plan.1, others, i) { NoneWins(t, plan.1, others, |plan.1|); }
  }

  /**
   The end of a message, whatever others write between its insertions. OK means that a row of
   it is in the queue. After any other answer nothing of it is but insertions whose replies
   were lost; without such, the queue is as the others alone would have left it. Whatever is
   new in the queue validated, or was inserted by others.
   */
  lemma ReplyAgreesWithQueue(ctx: Context, s: Session, tries: Attempts, t: Table, others: Others)
    ensures var plan := Plan(ctx, s, tries);
            var cs, reply, t' := plan.1, ReplyTo(plan, t, others), TableAfter(plan, t, others);
            && (reply == Okay ==> exists i: nat :: i < |cs| && Wins(t, cs, others, i) && Holds(t', cs[i].row))
            && (reply != Okay ==> forall i: nat :: i < |cs| && Wins(t, cs, others, i) ==> tries(i).lost)
            && (reply != Okay && (forall i: nat :: i < |cs| && Wins(t, cs, others, i) ==> !tries(i).lost) ==>
                  t' == Alone(t, others, |cs|))
            && (forall id :: id in t ==> id in t' && SameMail(t[id], t'[id]))
            && (forall id :: id in t' && id !in t ==>
                  Validate(t'[id].content).Ok? || exists i: nat :: i < |cs| && Inserts(others(i), id))
  {
    var plan := Plan(ctx, s, tries);
    var cs, t' := plan.1, TableAfter(plan, t, others);
    PlanSound(ctx, s, tries);
    ReplyAgrees(plan, t, others);
    if ReplyTo(plan, t, others) == Okay {
      var i: nat :| i < |cs| && Wins(t, cs, others, i) && cs[i].heard;
      WinnerStays(t, cs, others, i, |cs|);
    }
    forall id | id in t ensures id in t' && SameMail(t[id], t'[id]) { RowsStay(t, cs, others, 0, |cs|, id); }
    forall id | id in t' && id !in t
      ensures Validate(t'[id].content).Ok? || exists i: nat :: i < |cs| && Inserts(others(i), id)
    {
      NewRowsExplained(t, cs, others, |cs|, id);
      if i: nat :| i < |cs| && Wins(t, cs, others, i) && cs[i].row.id == id {
        WinnerStays(t, cs, others, i, |cs|);
        assert cs[i] in cs;
      }
    }
  }

  /** A lost reply is the one way to refuse a message and keep it: stored, and answered with an internal error. */
  lemma LostReplyKeepsRow(row: Mail, t: Table, others: Others)
    requires row.id !in t && others(0) == []
    ensures var plan := (Okay, [Candidate(row, true, false)]);
            ReplyTo(plan, t, others) == InternalError && TableAfter(plan, t, others) == t[row.id := row]
  {
    var cs := [Candidate(row, true, false)];
    assert Stored(t, cs, others, 0) == t && Found(t, cs, others, 0) == t;
    assert Accepted(t, cs, others, 0) == 0 && Accepted(t, cs, others, 1) == 0;
    CandidateAdds(t, cs, others, 0);
  }
}
