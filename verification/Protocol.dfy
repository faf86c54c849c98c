/**
 The store-and-forward protocol as a transition system: one dispatcher that
 recovers, ticks, claims and spawns; the delivery tasks it spawns; the ingress
 that inserts mail at any moment; a clock; and crashes. An event says which step
 is taken and resolves every choice in it (which task, what a transport answered,
 whether a queue statement failed); `Next` is then a function.

 `ledger` and `fates` are history: no step looks at them.
 */
module Protocol {
  import opened Mails
  import opened Retry
  import opened QueueTable

  datatype Config = Config(
    batchSize: nat,
    concurrency: nat,
    lease: nat,
    maxAttempts: U32Int,
    delays: Delays,
    transports: set<string>,
    defaultTransport: Option<string>)

  /** What configuration loading insists on. */
  predicate ValidConfig(c: Config) {
    c.batchSize >= 1 && c.concurrency >= 1 && c.maxAttempts >= 1
  }

  /** The dispatcher of a configured relay; a lease chrono cannot hold becomes two minutes. */
  function Configured(batchSize: U32Int, concurrency: nat, leaseSecs: U64, retry: RetryPolicy,
                      transports: set<string>, defaultTransport: Option<string>): Config
  {
    Config(batchSize, concurrency,
           if leaseSecs <= CHRONO_MAX_SECS then leaseSecs * NANOS else 120 * NANOS,
           retry.maxAttempts, DelaysOf(retry), transports, defaultTransport)
  }

  // ----- one delivery -----

  datatype SendResult = Delivered | Errored(message: string)

  datatype Write = ToSent | ToFailed(error: string, retryAt: int) | ToDead(error: string)

  const NO_TRANSPORT := "no transport available"

  /** The mail's own transport, or else the default, must name a known transport. */
  predicate HasTransport(c: Config, m: Mail) {
    var name := if m.content.transport.Some? then m.content.transport else c.defaultTransport;
    name.Some? && name.value in c.transports
  }

  /** The status write that ends a delivery; `doneAt` is when the transport answered. */
  function WriteFor(c: Config, m: Mail, result: SendResult, doneAt: int): Write {
    if !HasTransport(c, m) then ToDead(NO_TRANSPORT)
    else match result
      case Delivered => ToSent
      case Errored(e) =>
        var attempts: U32Int := (m.attempts + 1) % U32;
        if Exhausted(c.maxAttempts, attempts) then ToDead(e)
        else ToFailed(e, doneAt + c.delays(attempts))
  }

  /** Issues the status write: `mark_sent`, `mark_failed` or `mark_dead`. */
  function ApplyWrite(t: Table, id: MailId, w: Write, now: int): Table {
    match w
    case ToSent => MarkSent(t, id, now)
    case ToFailed(e, retryAt) => MarkFailed(t, id, e, retryAt, now)
    case ToDead(e) => MarkDead(t, id, e, now)
  }

  /** The row that write leaves. */
  function Written(m: Mail, w: Write, now: int): Mail {
    match w
    case ToSent => Rewritten(m, Sent, None, false, None, now)
    case ToFailed(e, retryAt) => Rewritten(m, Failed, Some(e), true, Some(retryAt), now)
    case ToDead(e) => Rewritten(m, Dead, Some(e), true, None, now)
  }

  // ----- state -----

  datatype Phase = Spawned | InSend | Recording(result: SendResult, doneAt: int)

  /** A delivery task works on the copy of the mail that was fetched. */
  datatype Task = Task(mail: Mail, phase: Phase)

  datatype Pc =
    | Down
    | Starting
    | Idle
    | Reclaiming(now: int)
    | Fetching(now: int)
    | Claiming(rest: seq<Mail>)
    | Waiting(mail: Mail, rest: seq<Mail>)
    | Joining

  /** What became of a fetched mail: history kept per tick. */
  datatype Fate =
    | Untouched
    | Orphaned(claimAt: int)
    | Settled(claimAt: int, result: SendResult, doneAt: int, recordAt: int)

  /** Lifetime counts of one mail: transport calls, and recorded outcomes by what the transport answered. */
  datatype Book = Book(sends: nat, delivered: nat, failures: nat, refusals: nat, lost: nat)

  datatype State = State(
    table: Table,
    clock: int,
    pc: Pc,
    live: map<nat, Task>,
    permits: int,
    nextHandle: nat,
    fates: map<MailId, Fate>,
    ledger: map<MailId, Book>)

  function BookOf(ledger: map<MailId, Book>, id: MailId): Book {
    if id in ledger then ledger[id] else Book(0, 0, 0, 0, 0)
  }

  predicate CallingTransport(c: Config, task: Task) {
    !task.phase.Spawned? && HasTransport(c, task.mail)
  }

  function LiveCalls(c: Config, live: map<nat, Task>, id: MailId): set<nat> {
    set h | h in live && live[h].mail.id == id && CallingTransport(c, live[h])
  }

  function Initial(clock: int): State {
    State(map[], clock, Down, map[], 0, 0, map[], map[])
  }

  // ----- steps -----

  datatype ClaimReply = Granted | Refused | ReplyLost

  datatype Event =
    | Advance(to: int)
    | Enqueue(id: MailId, content: NewMail, stamp: int)
    | TickStart
    | Reclaim(ok: bool)
    | Fetch(batch: seq<Mail>)
    | FetchFailed
    | Claim(reply: ClaimReply)
    | Spawn
    | BeginSend(handle: nat)
    | Refuse(handle: nat)
    | SendDone(handle: nat, result: SendResult)
    | Record(handle: nat)
    | TaskLost(handle: nat)
    | ClaimsDone
    | TickEnd
    | Crash
    | Restart
    | Recover(ok: bool)

  ghost predicate Enabled(c: Config, s: State, e: Event) {
    match e
    case Advance(to) => s.clock <= to
    case Enqueue(_, _, stamp) => s.pc != Down && stamp <= s.clock
    case TickStart => s.pc == Idle
    case Reclaim(_) => s.pc.Reclaiming?
    case Fetch(batch) => s.pc.Fetching? && IsFetch(s.table, c.batchSize, s.pc.now, batch)
    case FetchFailed => s.pc.Fetching?
    case Claim(_) => s.pc.Claiming? && s.pc.rest != []
    case Spawn => s.pc.Waiting? && s.permits > 0
    case BeginSend(h) => h in s.live && s.live[h].phase.Spawned? && HasTransport(c, s.live[h].mail)
    case Refuse(h) => h in s.live && s.live[h].phase.Spawned? && !HasTransport(c, s.live[h].mail)
    case SendDone(h, _) => h in s.live && s.live[h].phase.InSend?
    case Record(h) => h in s.live && s.live[h].phase.Recording?
    case TaskLost(h) => h in s.live
    case ClaimsDone => s.pc.Claiming? && s.pc.rest == []
    case TickEnd => s.pc == Joining && s.live == map[]
    case Crash => s.pc != Down
    case Restart => s.pc == Down
    case Recover(_) => s.pc == Starting
  }

  /** The claim loop takes the next mail: `mark_sending`, and on an error the loop goes on without it. */
  function ClaimNext(s: State, reply: ClaimReply): State
    requires s.pc.Claiming? && s.pc.rest != []
  {
    var mail, rest := s.pc.rest[0], s.pc.rest[1..];
    match reply
    case Granted =>
      s.(table := MarkSending(s.table, mail.id, s.clock), pc := Waiting(mail, rest),
         fates := s.fates[mail.id := Orphaned(s.clock)])
    case Refused =>
      s.(pc := Claiming(rest), fates := s.fates[mail.id := Untouched])
    case ReplyLost =>
      s.(table := MarkSending(s.table, mail.id, s.clock), pc := Claiming(rest),
         fates := s.fates[mail.id := Orphaned(s.clock)])
  }

  function SetPhase(s: State, h: nat, phase: Phase): State
    requires h in s.live
  {
    s.(live := s.live[h := s.live[h].(phase := phase)])
  }

  function AddToBook(s: State, id: MailId, entry: Book -> Book): State {
    s.(ledger := s.ledger[id := entry(BookOf(s.ledger, id))])
  }

  /** A task is over: it leaves the live set and its permit returns. */
  function Finish(s: State, h: nat): State {
    s.(live := s.live - {h}, permits := s.permits + 1)
  }

  function RecordOutcome(c: Config, s: State, h: nat): State
    requires h in s.live && s.live[h].phase.Recording?
  {
    var mail, phase := s.live[h].mail, s.live[h].phase;
    var write := WriteFor(c, mail, phase.result, phase.doneAt);
    var claimAt := if mail.id in s.fates && s.fates[mail.id].Orphaned? then s.fates[mail.id].claimAt else phase.doneAt;
    var booked :=
      AddToBook(s, mail.id, (b: Book) =>
        if !HasTransport(c, mail) then b.(refusals := b.refusals + 1)
        else if phase.result.Delivered? then b.(delivered := b.delivered + 1)
        else b.(failures := b.failures + 1));
    Finish(booked, h).(
      table := ApplyWrite(s.table, mail.id, write, s.clock),
      fates := s.fates[mail.id := Settled(claimAt, phase.result, phase.doneAt, s.clock)])
  }

  function LoseTask(c: Config, s: State, h: nat): State
    requires h in s.live
  {
    if CallingTransport(c, s.live[h]) then
      Finish(AddToBook(s, s.live[h].mail.id, (b: Book) => b.(lost := b.lost + 1)), h)
    else
      Finish(s, h)
  }

  function CrashAll(c: Config, s: State): State {
    s.(pc := Down, live := map[], permits := 0,
       ledger := map id | id in s.ledger ::
         s.ledger[id].(lost := s.ledger[id].lost + |LiveCalls(c, s.live, id)|))
  }

  ghost function Next(c: Config, s: State, e: Event): State
    requires Enabled(c, s, e)
  {
    match e
    case Advance(to) => s.(clock := to)
    case Enqueue(id, content, stamp) => s.(table := Insert(s.table, FromNew(content, stamp, id)))
    case TickStart => s.(pc := Reclaiming(s.clock))
    case Reclaim(ok) =>
      s.(pc := Fetching(s.pc.now),
         table := if ok then RequeueStale(s.table, s.pc.now - c.lease, s.clock) else s.table)
    case Fetch(batch) =>
      s.(pc := if batch == [] then Idle else Claiming(batch), permits := c.concurrency, fates := map[])
    case FetchFailed => s.(pc := Idle, fates := map[])
    case Claim(reply) => ClaimNext(s, reply)
    case Spawn =>
      s.(pc := Claiming(s.pc.rest), permits := s.permits - 1, nextHandle := s.nextHandle + 1,
         live := s.live[s.nextHandle := Task(s.pc.mail, Spawned)])
    case BeginSend(h) =>
      SetPhase(AddToBook(s, s.live[h].mail.id, (b: Book) => b.(sends := b.sends + 1)), h, InSend)
    case Refuse(h) => SetPhase(s, h, Recording(Errored(NO_TRANSPORT), s.clock))
    case SendDone(h, result) => SetPhase(s, h, Recording(result, s.clock))
    case Record(h) => RecordOutcome(c, s, h)
    case TaskLost(h) => LoseTask(c, s, h)
    case ClaimsDone => s.(pc := Joining)
    case TickEnd => s.(pc := Idle)
    case Crash => CrashAll(c, s)
    case Restart => s.(pc := Starting)
    case Recover(ok) =>
      s.(pc := Idle, table := if ok then RequeueSending(s.table, s.clock) else s.table)
  }

  // ----- runs -----

  ghost predicate IsRun(c: Config, s: State, es: seq<Event>)
    decreases es
  {
    es == [] || (Enabled(c, s, es[0]) && IsRun(c, Next(c, s, es[0]), es[1..]))
  }

  ghost function After(c: Config, s: State, es: seq<Event>): State
    requires IsRun(c, s, es)
    decreases es
  {
    if es == [] then s else After(c, Next(c, s, es[0]), es[1..])
  }

  /** A run cut anywhere is a run, then a run. */
  lemma {:induction false} RunSplit(c: Config, s: State, es: seq<Event>, k: nat)
    requires k <= |es|
    ensures IsRun(c, s, es) <==> IsRun(c, s, es[..k]) && IsRun(c, After(c, s, es[..k]), es[k..])
    ensures IsRun(c, s, es) ==> After(c, s, es) == After(c, After(c, s, es[..k]), es[k..])
    decreases es
  {
    if k == 0 {
      assert es[..0] == [] && es[0..] == es;
    } else {
      assert es[..k][0] == es[0] && es[..k][1..] == es[1..][..k - 1] && es[k..] == es[1..][k - 1..];
      if Enabled(c, s, es[0]) { RunSplit(c, Next(c, s, es[0]), es[1..], k - 1); }
    }
  }
}
