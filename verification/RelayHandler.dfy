/** The handler object of one SMTP connection, over the SQLite queue. */
module RelayHandlers {
  import opened Mails
  import opened QueueTable
  import opened Statements
  import opened Rfc3339
  import opened SqliteQueues
  import opened Routing
  import opened Sessions
  import opened Fanout
  import opened Ingress

  /** All times at hand can be written as text. */
  ghost predicate Datable(tries: Attempts, others: Others) {
    forall i: nat :: IsInstant(tries(i).now) && AllInTime(others(i))
  }

  class RelayHandler {
    const ctx: Context
    const queue: SqliteQueue
    var authenticatedAs: Option<string>
    var envelopeFrom: string
    var recipients: seq<string>
    var data: Bytes
    /** Every callback so far. */
    ghost var history: seq<Callback>

    function Fields(): Session
      reads this
    {
      Session(authenticatedAs, envelopeFrom, recipients, data)
    }

    /** The fields are what the history leaves, callback by callback. */
    ghost predicate Valid()
      reads this
    {
      Fields() == Replay(ctx.gate, history)
    }

    /** So at every moment they are what the history says as a whole. */
    lemma FieldsAreHistory()
      requires Valid()
      ensures Fields() == SessionOf(ctx.gate, history)
    {
      ReplayIsSession(ctx.gate, history);
    }

    constructor (ctx: Context, queue: SqliteQueue)
      ensures this.ctx == ctx && this.queue == queue && Valid() && history == []
    {
      this.ctx := ctx;
      this.queue := queue;
      authenticatedAs := None;
      envelopeFrom := "";
      recipients := [];
      data := [];
      history := [];
    }

    method Helo(ip: string) returns (r: Reply)
      requires Valid()
      modifies this
      ensures Valid() && history == old(history) + [Callback.Helo(ip)]
      ensures r == if ctx.gate.whitelisted(ip) then Okay else ServiceNotAvailable
    {
      ReplayExtends(ctx.gate, history, Callback.Helo(ip));
      history := history + [Callback.Helo(ip)];
      r := if ctx.gate.whitelisted(ip) then Okay else ServiceNotAvailable;
    }

    /** An accepted `MAIL` starts afresh even when it is then refused for want of a login. */
    method MailFrom(ip: string, from: string) returns (r: Reply)
      requires Valid()
      modifies this
      ensures Valid() && history == old(history) + [Callback.MailFrom(ip, from)]
      ensures r == Okay <==> ctx.gate.whitelisted(ip) && (ctx.gate.anonymous || authenticatedAs.Some?)
      ensures r == ServiceNotAvailable <==> !ctx.gate.whitelisted(ip)
      ensures r in {Okay, ServiceNotAvailable, AuthenticationRequired}
    {
      ReplayExtends(ctx.gate, history, Callback.MailFrom(ip, from));
      history := history + [Callback.MailFrom(ip, from)];
      if !ctx.gate.whitelisted(ip) { return ServiceNotAvailable; }
      envelopeFrom := from;
      recipients := [];
      data := [];
      if !ctx.gate.anonymous && authenticatedAs.None? { return AuthenticationRequired; }
      r := Okay;
    }

    method Rcpt(to: string) returns (r: Reply)
      requires Valid()
      modifies this
      ensures Valid() && history == old(history) + [Callback.Rcpt(to)] && r == Okay
    {
      ReplayExtends(ctx.gate, history, Callback.Rcpt(to));
      history := history + [Callback.Rcpt(to)];
      recipients := recipients + [to];
      r := Okay;
    }

    method DataStart() returns (r: Reply)
      requires Valid()
      modifies this
      ensures Valid() && history == old(history) + [Callback.DataStart] && r == Okay
    {
      ReplayExtends(ctx.gate, history, Callback.DataStart);
      history := history + [Callback.DataStart];
      data := [];
      r := Okay;
    }

    method Data(buf: Bytes)
      requires Valid()
      modifies this
      ensures Valid() && history == old(history) + [Callback.Data(buf)]
    {
      ReplayExtends(ctx.gate, history, Callback.Data(buf));
      history := history + [Callback.Data(buf)];
      data := data + buf;
    }

    method TryAuth(user: string, password: string) returns (r: Reply)
      requires Valid()
      modifies this
      ensures Valid() && history == old(history) + [Callback.Auth(user, password)]
      ensures match ctx.gate.authenticate(user, password)
              case Recognised(_) => r == AuthAccepted
              case NotRecognised => r == InvalidCredentials
              case AuthUnavailable => r == TemporaryAuthFailure
    {
      ReplayExtends(ctx.gate, history, Callback.Auth(user, password));
      history := history + [Callback.Auth(user, password)];
      match ctx.gate.authenticate(user, password) {
        case Recognised(name) =>
          authenticatedAs := Some(name);
          r := AuthAccepted;
        case NotRecognised => r := InvalidCredentials;
        case AuthUnavailable => r := TemporaryAuthFailure;
      }
    }

    /** One target: nothing for an invalid payload, otherwise an insertion. */
    method EnqueueFor(base: NewMail, target: RouteTarget, a: Attempt) returns (ok: bool)
      requires queue.Valid() && IsInstant(a.now)
      modifies queue
      ensures queue.Valid()
      ensures var c := CandidateFor(base, target, a);
              && queue.table == (if c.sound then Insert(old(queue.table), c.row) else old(queue.table))
              && (ok <==> c.sound && c.row.id !in old(queue.table) && c.heard)
    {
      var payload := PayloadFor(base, target);
      if Validate(payload).Err? { return false; }
      var stored := queue.Enqueue(FromNew(payload, a.now, a.id), a.fault, a.lost);
      ok := stored.Ok?;
    }

    /** Others write, then target `i` is tried. */
    method EnqueueNext(base: NewMail, target: RouteTarget, a: Attempt, sts: seq<Statement>,
                       ghost t: Table, ghost cs: seq<Candidate>, ghost others: Others, ghost i: nat,
                       accepted: nat) returns (counted: nat)
      requires queue.Valid() && IsInstant(a.now) && AllInTime(sts)
      requires i < |cs| && queue.table == Stored(t, cs, others, i) && sts == others(i)
      requires cs[i] == CandidateFor(base, target, a) && accepted == Accepted(t, cs, others, i)
      modifies queue
      ensures queue.Valid() && queue.table == Stored(t, cs, others, i + 1)
      ensures counted == Accepted(t, cs, others, i + 1)
    {
      queue.WriteAll(sts);
      var ok := EnqueueFor(base, target, a);
      counted := if ok then accepted + 1 else accepted;
    }

    /** Tries every target in turn, others writing in between, and counts those reported stored. */
    method EnqueueAll(base: NewMail, targets: seq<RouteTarget>, tries: Attempts, others: Others, ghost cs: seq<Candidate>)
        returns (accepted: nat)
      requires queue.Valid() && Datable(tries, others)
      requires |cs| == |targets| && forall i: nat :: i < |cs| ==> cs[i] == CandidateFor(base, targets[i], tries(i))
      modifies queue
      ensures queue.Valid()
      ensures queue.table == Stored(old(queue.table), cs, others, |cs|)
      ensures accepted == Accepted(old(queue.table), cs, others, |cs|)
    {
      ghost var t := queue.table;
      accepted := 0;
      for i := 0 to |targets|
        invariant queue.Valid()
        invariant queue.table == Stored(t, cs, others, i)
        invariant accepted == Accepted(t, cs, others, i)
      {
        accepted := EnqueueNext(base, targets[i], tries(i), others(i), t, cs, others, i, accepted);
      }
    }

    /** Routes a built message and stores it. */
    method Dispose(built: Result<NewMail>, tries: Attempts, others: Others) returns (r: Reply)
      requires queue.Valid() && Datable(tries, others)
      modifies queue
      ensures queue.Valid()
      ensures var plan := PlanFor(ctx.routing, built, tries);
              r == ReplyTo(plan, old(queue.table), others) && queue.table == TableAfter(plan, old(queue.table), others)
    {
      if built.Err? { return Rejected(built.error); }
      var route := RouteOf(ctx.routing, built.value.from.email);
      if route == Reject { return SenderNotPermitted; }
      var accepted := EnqueueAll(built.value, route.targets, tries, others, Candidates(built.value, route.targets, tries));
      r := if accepted == 0 then InternalError else Okay;
    }

    /** The transaction of the history decides both the reply and what the queue gains. */
    method DataEnd(tries: Attempts, others: Others) returns (r: Reply)
      requires Valid() && queue.Valid() && Datable(tries, others)
      modifies this, queue
      ensures Valid() && queue.Valid() && history == old(history) + [Callback.DataEnd]
      ensures var plan := Plan(ctx, Replay(ctx.gate, old(history)), tries);
              r == ReplyTo(plan, old(queue.table), others) && queue.table == TableAfter(plan, old(queue.table), others)
    {
      ReplayExtends(ctx.gate, history, Callback.DataEnd);
      var built := BuildNewMail(ctx, Fields());
      history := history + [Callback.DataEnd];
      r := Dispose(built, tries, others);
    }
  }
}
