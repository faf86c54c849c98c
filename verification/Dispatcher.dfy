/**
 The dispatcher as a program: `Recover`, `Tick` with its claim loop, permits and join
 loop, and `Run`. What happens around it at every point where it waits (insertions, the
 clock, delivery tasks at work) is handed in as a `World`. Every execution is a run of
 module Protocol, so the guarantees over runs hold of the object, and a tick leaves the
 table of the sequential tick.
 */
module Dispatchers {
  import opened Mails
  import opened QueueTable
  import opened Protocol
  import opened Safety
  import opened Guarantees
  import opened TickRefinement

  /** Steps that others take while the dispatcher waits. */
  predicate Outside(e: Event) {
    e.Advance? || e.Enqueue? || e.BeginSend? || e.Refuse? || e.SendDone? || e.Record? || e.TaskLost?
  }

  /**
   Everything that one tick does not decide: what others do at each waiting point,
   what the queue answers, and the transport answer of a task the dispatcher has to
   wait for, by handle. A move that is not possible when its turn comes is skipped.
   */
  datatype World = World(
    beforeReclaim: seq<Event>,
    reclaimOk: bool,
    beforeFetch: seq<Event>,
    select: (Table, int) -> Option<seq<Mail>>,
    beforeClaim: nat -> seq<Event>,
    claims: nat -> ClaimReply,
    beforePermit: nat -> seq<Event>,
    beforeJoin: nat -> seq<Event>,
    results: nat -> SendResult)

  /** The queue answers a fetch correctly, or fails. */
  ghost predicate Honest(c: Config, w: World) {
    forall t, now :: w.select(t, now).Some? ==> IsFetch(t, c.batchSize, now, w.select(t, now).value)
  }

  /** The mails a fetch hands over; none when it fails. */
  function Answer(w: World, t: Table, now: int): seq<Mail> {
    if w.select(t, now).Some? then w.select(t, now).value else []
  }

  /** The step a fetch is on the trace. */
  function FetchEvent(w: World, t: Table, now: int): Event {
    if w.select(t, now).Some? then Fetch(w.select(t, now).value) else FetchFailed
  }

  /** How many of the first `n` fetched mails are claimed. */
  function Grants(w: World, n: nat): nat {
    if n == 0 then 0 else Grants(w, n - 1) + (if w.claims(n - 1) == Granted then 1 else 0)
  }

  ghost predicate Leads(c: Config, s: State, es: seq<Event>, s': State) {
    IsRun(c, s, es) && After(c, s, es) == s'
  }

  lemma LeadsOne(c: Config, s: State, es: seq<Event>, s': State, e: Event)
    requires Leads(c, s, es, s') && Enabled(c, s', e)
    ensures Leads(c, s, es + [e], Next(c, s', e))
  {
    var all := es + [e];
    assert all[..|es|] == es && all[|es|..] == [e];
    RunSplit(c, s, all, |es|);
  }

  lemma LeadsBetween(c: Config, s: State, es: seq<Event>, mid: State, all: seq<Event>, s': State)
    requires Leads(c, s, es, mid) && Leads(c, s, all, s') && es <= all
    ensures Leads(c, mid, all[|es|..], s')
  {
    assert all[..|es|] == es;
    RunSplit(c, s, all, |es|);
  }

  /** The trace has grown by steps within a tick only. */
  ghost predicate Grown(es: seq<Event>, es': seq<Event>) {
    es <= es' && forall i :: |es| <= i < |es'| ==> WithinTick(es'[i])
  }

  lemma GrownThen(a: seq<Event>, b: seq<Event>, d: seq<Event>)
    requires Grown(a, b) && Grown(b, d)
    ensures Grown(a, d)
  {
    assert forall i :: |a| <= i < |b| ==> d[i] == b[i];
  }

  lemma TraceGoesOn(a: seq<Event>, b: seq<Event>, d: seq<Event>, e: Event)
    requires Grown(a + [TickStart], b) && Grown(b, d) && e in b[|a|..]
    ensures Grown(a + [TickStart], d) && e in d[|a|..]
  {
    GrownThen(a + [TickStart], b, d);
    var i :| 0 <= i < |b[|a|..]| && b[|a|..][i] == e;
    assert d[|a|..][i] == e;
  }

  /** How many ticks a trace begins. */
  function Ticks(es: seq<Event>): nat {
    if es == [] then 0 else Ticks(es[..|es| - 1]) + (if es[|es| - 1].TickStart? then 1 else 0)
  }

  lemma {:induction false} TicksGrown(es: seq<Event>, es': seq<Event>)
    requires Grown(es, es')
    ensures Ticks(es') == Ticks(es)
    decreases |es'|
  {
    if |es| < |es'| {
      assert WithinTick(es'[|es'| - 1]);
      TicksGrown(es, es'[..|es'| - 1]);
    } else {
      assert es == es';
    }
  }

  lemma TicksOneMore(es: seq<Event>, es': seq<Event>)
    requires Grown(es + [TickStart], es')
    ensures Ticks(es') == Ticks(es) + 1
  {
    assert (es + [TickStart])[..|es|] == es;
    TicksGrown(es + [TickStart], es');
  }

  class Dispatcher {
    const c: Config
    /** The queue, shared with the ingress. */
    var table: Table
    var clock: int
    var live: map<nat, Task>
    var permits: int
    var nextHandle: nat
    /** Where the program stands, what befell the mails, and all steps so far. */
    ghost var at: Pc
    ghost var fates: map<MailId, Fate>
    ghost var ledger: map<MailId, Book>
    ghost const origin: int
    ghost var trace: seq<Event>

    ghost function View(): State
      reads this
    {
      State(table, clock, at, live, permits, nextHandle, fates, ledger)
    }

    ghost predicate Valid()
      reads this
    {
      ValidConfig(c) && Leads(c, Initial(origin), trace, View())
    }

    /** A process started over an empty queue. */
    constructor (c: Config, clock: int)
      requires ValidConfig(c)
      ensures Valid() && at == Starting && this.c == c && table == map[]
    {
      this.c := c;
      table, this.clock, live, permits, nextHandle := map[], clock, map[], 0, 0;
      at, fates, ledger := Starting, map[], map[];
      origin, trace := clock, [Restart];
      new;
      LeadsOne(c, Initial(clock), [], Initial(clock), Restart);
    }

    lemma ValidIsReachable()
      requires Valid()
      ensures Reachable(c, View())
    {
    }

    /** In every state of the object the invariant of the protocol holds. */
    lemma ValidKeepsInv()
      requires Valid()
      ensures Reachable(c, View()) && Inv(c, View())
    {
      ReachableInv(c, View());
    }

    /** A step of the ingress or of the clock. */
    method Elsewhere(e: Event) returns (ok: bool)
      requires (e.Advance? || e.Enqueue?) && at != Down
      modifies this`table, this`clock
      ensures ok <==> Enabled(c, old(View()), e)
      ensures View() == if ok then Next(c, old(View()), e) else old(View())
    {
      match e
      case Advance(to) =>
        ok := clock <= to;
        if ok { clock := to; }
      case Enqueue(id, content, stamp) =>
        ok := stamp <= clock;
        if ok { table := Insert(table, FromNew(content, stamp, id)); }
    }

    /** A delivery task resolves its transport, sends, or hears the answer. */
    method Deliver(e: Event) returns (ok: bool)
      requires e.BeginSend? || e.Refuse? || e.SendDone?
      modifies this`live, this`ledger
      ensures ok <==> Enabled(c, old(View()), e)
      ensures View() == if ok then Next(c, old(View()), e) else old(View())
      ensures live.Keys == old(live).Keys
    {
      match e
      case BeginSend(h) =>
        ok := h in live && live[h].phase.Spawned? && HasTransport(c, live[h].mail);
        if ok {
          ledger := Next(c, View(), e).ledger;
          live := live[h := live[h].(phase := InSend)];
        }
      case Refuse(h) =>
        ok := h in live && live[h].phase.Spawned? && !HasTransport(c, live[h].mail);
        if ok { live := live[h := live[h].(phase := Recording(Errored(NO_TRANSPORT), clock))]; }
      case SendDone(h, result) =>
        ok := h in live && live[h].phase.InSend?;
        if ok { live := live[h := live[h].(phase := Recording(result, clock))]; }
    }

    /** A delivery task writes its outcome, or ends without; either way its permit returns. */
    method EndTask(h: nat, e: Event) returns (ok: bool)
      requires e == Record(h) || e == TaskLost(h)
      modifies this`table, this`live, this`permits, this`fates, this`ledger
      ensures ok <==> Enabled(c, old(View()), e)
      ensures View() == if ok then Next(c, old(View()), e) else old(View())
      ensures live == (if ok then old(live) - {h} else old(live))
      ensures permits == (if ok then old(permits) + 1 else old(permits))
    {
      ok := h in live && (e.Record? ==> live[h].phase.Recording?);
      if ok {
        fates, ledger := Next(c, View(), e).fates, Next(c, View(), e).ledger;
        if e.Record? {
          var m, phase := live[h].mail, live[h].phase;
          table := ApplyWrite(table, m.id, WriteFor(c, m, phase.result, phase.doneAt), clock);
        }
        live, permits := live - {h}, permits + 1;
      }
    }

    method Apply(e: Event) returns (ok: bool)
      requires Outside(e) && at != Down
      modifies this`table, this`clock, this`live, this`permits, this`fates, this`ledger
      ensures ok <==> Enabled(c, old(View()), e)
      ensures View() == if ok then Next(c, old(View()), e) else old(View())
      ensures live.Keys <= old(live).Keys
    {
      if e.Advance? || e.Enqueue? {
        ok := Elsewhere(e);
      } else if e.Record? || e.TaskLost? {
        ok := EndTask(e.handle, e);
      } else {
        ok := Deliver(e);
      }
    }

    /** One step of somebody else, skipped when it is not possible. */
    method Perform(e: Event)
      requires Valid() && at != Down
      modifies this`table, this`clock, this`live, this`permits, this`fates, this`ledger, this`trace
      ensures Valid() && Grown(old(trace), trace) && live.Keys <= old(live).Keys
      ensures View() == if Outside(e) && Enabled(c, old(View()), e) then Next(c, old(View()), e) else old(View())
    {
      if Outside(e) {
        ghost var s := View();
        var ok := Apply(e);
        if ok {
          LeadsOne(c, Initial(origin), trace, s, e);
          trace := trace + [e];
        }
      }
    }

    /** The dispatcher waits: others move. */
    method Wait(moves: seq<Event>)
      requires Valid() && at != Down
      modifies this`table, this`clock, this`live, this`permits, this`fates, this`ledger, this`trace
      ensures Valid() && Grown(old(trace), trace) && live.Keys <= old(live).Keys
    {
      for i := 0 to |moves|
        invariant Valid() && Grown(old(trace), trace) && live.Keys <= old(live).Keys
      {
        Perform(moves[i]);
      }
    }

    /** Nothing else moving, a task resolves its transport. */
    method StartTask(h: nat)
      requires Valid() && at != Down && h in live
      modifies this`table, this`clock, this`live, this`permits, this`fates, this`ledger, this`trace
      ensures Valid() && Grown(old(trace), trace) && live.Keys == old(live).Keys && permits == old(permits)
      ensures !live[h].phase.Spawned?
    {
      if live[h].phase.Spawned? {
        if HasTransport(c, live[h].mail) { Perform(BeginSend(h)); } else { Perform(Refuse(h)); }
      }
    }

    /** And gets its answer. */
    method RunToAnswer(h: nat, result: SendResult)
      requires Valid() && at != Down && h in live
      modifies this`table, this`clock, this`live, this`permits, this`fates, this`ledger, this`trace
      ensures Valid() && Grown(old(trace), trace) && live.Keys == old(live).Keys && permits == old(permits)
      ensures live[h].phase.Recording?
    {
      StartTask(h);
      if live[h].phase.InSend? { Perform(SendDone(h, result)); }
    }

    /** Nothing else moving, a task runs to its end. */
    method RunTask(h: nat, result: SendResult)
      requires Valid() && at != Down && h in live
      modifies this`table, this`clock, this`live, this`permits, this`fates, this`ledger, this`trace
      ensures Valid() && Grown(old(trace), trace) && live.Keys == old(live).Keys - {h} && permits == old(permits) + 1
    {
      RunToAnswer(h, result);
      Perform(Record(h));
    }

    /** Puts a step of the dispatcher itself on the trace. */
    ghost method Note(s: State, e: Event)
      requires ValidConfig(c) && Leads(c, Initial(origin), trace, s) && Enabled(c, s, e) && View() == Next(c, s, e)
      modifies this`trace
      ensures Valid() && trace == old(trace) + [e]
    {
      LeadsOne(c, Initial(origin), trace, s, e);
      trace := trace + [e];
    }

    method ClaimMail(mail: Mail, ghost rest: seq<Mail>, reply: ClaimReply)
      requires Valid() && at == Claiming([mail] + rest)
      modifies this`table, this`at, this`fates, this`trace
      ensures Valid() && Grown(old(trace), trace)
      ensures at == if reply == Granted then Waiting(mail, rest) else Claiming(rest)
    {
      ghost var s := View();
      assert ([mail] + rest)[1..] == rest;
      if reply != Refused { table := MarkSending(table, mail.id, clock); }
      fates := ClaimNext(s, reply).fates;
      at := ClaimNext(s, reply).pc;
      Note(s, Claim(reply));
    }

    /** Waits for a permit; should the others not free one, a task is run to its end. */
    method AwaitPermit(w: World, i: nat)
      requires Valid() && at.Waiting?
      modifies this`table, this`clock, this`live, this`permits, this`fates, this`ledger, this`trace
      ensures Valid() && Grown(old(trace), trace) && live.Keys <= old(live).Keys && permits > 0
    {
      Wait(w.beforePermit(i));
      PermitsCounted();
      if permits == 0 {
        SomeoneHoldsAPermit();
        var h :| h in live;
        RunTask(h, w.results(h));
      }
    }

    method SpawnTask(mail: Mail) returns (handle: nat)
      requires Valid() && at.Waiting? && at.mail == mail && permits > 0
      modifies this`live, this`permits, this`nextHandle, this`at, this`trace
      ensures Valid() && Grown(old(trace), trace) && at == Claiming(old(at).rest)
      ensures live.Keys == old(live).Keys + {handle}
    {
      ghost var s := View();
      handle := nextHandle;
      live := live[nextHandle := Task(mail, Spawned)];
      permits, nextHandle := permits - 1, nextHandle + 1;
      at := Claiming(at.rest);
      Note(s, Spawn);
    }

    lemma PermitsCounted()
      requires Valid() && at.Waiting?
      ensures permits >= 0 && permits + |live| == c.concurrency
    {
      ValidKeepsInv();
    }

    lemma SomeoneHoldsAPermit()
      requires Valid() && at.Waiting? && permits == 0
      ensures exists h :: h in live
    {
      PermitsCounted();
      assert |live.Keys| >= 1;
      var h :| h in live.Keys;
    }

    /** One turn of the claim loop. */
    method ClaimOne(mail: Mail, ghost rest: seq<Mail>, w: World, i: nat) returns (handle: seq<nat>)
      requires Valid() && at == Claiming([mail] + rest)
      modifies this`table, this`clock, this`live, this`permits, this`nextHandle, this`at, this`fates, this`ledger, this`trace
      ensures Valid() && Grown(old(trace), trace) && at == Claiming(rest)
      ensures |handle| == (if w.claims(i) == Granted then 1 else 0)
      ensures forall h :: h in live ==> h in old(live) || h in handle
    {
      Wait(w.beforeClaim(i));
      ClaimMail(mail, rest, w.claims(i));
      handle := [];
      if w.claims(i) == Granted {
        AwaitPermit(w, i);
        var spawned := SpawnTask(mail);
        handle := [spawned];
      }
    }

    /** The claim loop. */
    method ClaimAll(due: seq<Mail>, w: World) returns (handles: seq<nat>)
      requires Valid() && at == Claiming(due) && live == map[]
      modifies this`table, this`clock, this`live, this`permits, this`nextHandle, this`at, this`fates, this`ledger, this`trace
      ensures Valid() && Grown(old(trace), trace) && at == Claiming([])
      ensures |handles| == Grants(w, |due|) && forall h :: h in live ==> h in handles
    {
      handles := [];
      for i := 0 to |due|
        invariant Valid() && Grown(old(trace), trace) && at == Claiming(due[i..])
        invariant |handles| == Grants(w, i) && forall h :: h in live ==> h in handles
      {
        assert due[i..] == [due[i]] + due[i + 1..];
        var handle := ClaimOne(due[i], due[i + 1..], w, i);
        handles := handles + handle;
      }
    }

    /** The join loop: each handle is awaited in turn. */
    method JoinAll(handles: seq<nat>, w: World)
      requires Valid() && at == Joining && forall h :: h in live ==> h in handles
      modifies this`table, this`clock, this`live, this`permits, this`fates, this`ledger, this`trace
      ensures Valid() && Grown(old(trace), trace) && live == map[]
    {
      for i := 0 to |handles|
        invariant Valid() && Grown(old(trace), trace)
        invariant forall h :: h in live ==> h in handles[i..]
      {
        Wait(w.beforeJoin(i));
        if handles[i] in live { RunTask(handles[i], w.results(handles[i])); }
        assert handles[i..] == [handles[i]] + handles[i + 1..];
      }
    }

    /** The reclaim that opens a tick; its failure is only logged. */
    method ReclaimStale(w: World) returns (now: int)
      requires Valid() && at == Idle
      modifies this`table, this`clock, this`live, this`permits, this`at, this`fates, this`ledger, this`trace
      ensures Valid() && at == Fetching(now) && now == old(clock) && live.Keys <= old(live).Keys
      ensures Grown(old(trace) + [TickStart], trace) && Reclaim(w.reclaimOk) in trace[|old(trace)|..]
    {
      ghost var s := View();
      now := clock;
      at := Reclaiming(now);
      Note(s, TickStart);
      Wait(w.beforeReclaim);
      s := View();
      if w.reclaimOk { table := RequeueStale(table, now - c.lease, clock); }
      at := Fetching(now);
      Note(s, Reclaim(w.reclaimOk));
      ghost var k := |trace| - 1;
      Wait(w.beforeFetch);
      assert trace[|old(trace)|..][k - |old(trace)|] == Reclaim(w.reclaimOk);
    }

    /** The fetch: what it answers is a correct selection of the table as it stands. */
    method FetchDue(now: int, w: World) returns (due: Option<seq<Mail>>)
      requires Valid() && at == Fetching(now) && Honest(c, w)
      modifies this`permits, this`at, this`fates, this`trace
      ensures Valid() && due == w.select(table, now) && trace == old(trace) + [FetchEvent(w, table, now)]
      ensures at == if due.Some? && due.value != [] then Claiming(due.value) else Idle
      ensures due.Some? ==>
        && Enabled(c, old(View()), Fetch(due.value)) && View() == Next(c, old(View()), Fetch(due.value))
    {
      ghost var s := View();
      due := w.select(table, now);
      fates := map[];
      if due.None? {
        at := Idle;
        Note(s, FetchFailed);
      } else {
        permits := c.concurrency;
        at := if due.value == [] then Idle else Claiming(due.value);
        Note(s, Fetch(due.value));
      }
    }

    /** The mails of a batch, from the first claim to the last join. */
    method DeliverBatch(due: seq<Mail>, w: World) returns (processed: nat)
      requires Valid() && at == Claiming(due) && live == map[]
      modifies this`table, this`clock, this`live, this`permits, this`nextHandle, this`at, this`fates, this`ledger, this`trace
      ensures Valid() && Grown(old(trace), trace) && at == Idle && processed == Grants(w, |due|)
    {
      var handles := ClaimAll(due, w);
      ghost var s := View();
      at := Joining;
      Note(s, ClaimsDone);
      JoinAll(handles, w);
      s := View();
      at := Idle;
      Note(s, TickEnd);
      processed := |handles|;
    }

    lemma NoFlights()
      requires Valid() && !InTick(at)
      ensures live == map[]
    {
      ValidKeepsInv();
    }

    /** The rest of a tick whose fetch in state `fetched` answered `due`; `es` is what happened in it. */
    method DeliverFetched(due: seq<Mail>, w: World, ghost fetched: State) returns (processed: nat, ghost es: seq<Event>)
      requires Valid() && at == Claiming(due) && live == map[]
      requires Reachable(c, fetched) && Enabled(c, fetched, Fetch(due)) && View() == Next(c, fetched, Fetch(due))
      modifies this`table, this`clock, this`live, this`permits, this`nextHandle, this`at, this`fates, this`ledger, this`trace
      ensures Valid() && Grown(old(trace), trace) && at == Idle && processed == Grants(w, |due|)
      ensures es == trace[|old(trace)|..]
      ensures table == SequentialTick(c, fetched.table, due, fates) + Inserted(fetched.table.Keys, es)
    {
      ghost var s, before := View(), trace;
      processed := DeliverBatch(due, w);
      es := trace[|before|..];
      LeadsBetween(c, Initial(origin), before, s, trace, View());
      ReachableInv(c, fetched);
      ParallelTickIsSequential(c, fetched, due, es);
    }

    /** The fetch and all that follows. */
    method FetchAndDeliver(now: int, w: World) returns (processed: nat, ghost batch: seq<Mail>, ghost es: seq<Event>)
      requires Valid() && at == Fetching(now) && live == map[] && Honest(c, w)
      modifies this`table, this`clock, this`live, this`permits, this`nextHandle, this`at, this`fates, this`ledger, this`trace
      ensures Valid() && Grown(old(trace), trace) && at == Idle
      ensures |old(trace)| < |trace| && trace[|old(trace)|] == FetchEvent(w, old(table), now)
      ensures batch == Answer(w, old(table), now) && es == trace[|old(trace)| + 1..] && processed == Grants(w, |batch|)
      ensures table == SequentialTick(c, old(table), batch, fates) + Inserted(old(table).Keys, es)
    {
      ghost var fetched := View();
      ValidIsReachable();
      var due := FetchDue(now, w);
      batch := Answer(w, table, now);
      if due.Some? && due.value != [] {
        processed, es := DeliverFetched(due.value, w, fetched);
      } else {
        processed, es := 0, [];
        assert table + map[] == table;
      }
    }

    /**
     One tick. Its fetch is step `k` of the trace, taken in state `fetched`, and `es` are the
     steps from then on: the table is that of the sequential tick plus the arrivals, and the
     mails counted as processed are those claimed.
     */
    method Tick(w: World)
        returns (processed: nat, ghost k: nat, ghost fetched: State, ghost batch: seq<Mail>, ghost es: seq<Event>)
      requires Valid() && at == Idle && Honest(c, w)
      modifies this
      ensures Valid() && at == Idle && live == map[]
      ensures Grown(old(trace) + [TickStart], trace) && Reclaim(w.reclaimOk) in trace[|old(trace)|..]
      ensures |old(trace)| < k < |trace| && Leads(c, Initial(origin), trace[..k], fetched)
      ensures fetched.pc == Fetching(old(clock)) && trace[k] == FetchEvent(w, fetched.table, old(clock))
      ensures batch == Answer(w, fetched.table, old(clock)) && es == trace[k + 1..]
      ensures table == SequentialTick(c, fetched.table, batch, fates) + Inserted(fetched.table.Keys, es)
      ensures processed == Grants(w, |batch|) <= |batch|
    {
      var now := ReclaimStale(w);
      fetched := View();
      NoFlights();
      ghost var reclaimed := trace;
      k := |reclaimed|;
      processed, batch, es := FetchAndDeliver(now, w);
      assert trace[..k] == reclaimed;
      TraceGoesOn(old(trace), reclaimed, trace, Reclaim(w.reclaimOk));
      NoFlights();
      GrantsBounded(w, |batch|);
    }

    /** Frees every mail left in flight; a failure is only logged. */
    method Recover(ok: bool)
      requires Valid() && at == Starting
      modifies this`table, this`at, this`trace
      ensures Valid() && at == Idle && trace == old(trace) + [Event.Recover(ok)]
      ensures table == if ok then RequeueSending(old(table), clock) else old(table)
      ensures ok ==> forall id :: id in table ==> table[id].status != Sending
    {
      ghost var s := View();
      if ok { table := RequeueSending(table, clock); }
      at := Idle;
      Note(s, Event.Recover(ok));
    }

    method PauseAndTick(pause: seq<Event>, w: World)
      requires Valid() && at == Idle && Honest(c, w)
      modifies this
      ensures Valid() && at == Idle && old(trace) <= trace && Ticks(trace) == Ticks(old(trace)) + 1
    {
      Wait(pause);
      TicksGrown(old(trace), trace);
      ghost var paused := trace;
      var processed, _, _, _, _ := Tick(w);
      TicksOneMore(paused, trace);
    }

    /** Recovery, then tick after tick, each over before the next begins. */
    method Run(ok: bool, pauses: nat -> seq<Event>, worlds: seq<World>)
      requires Valid() && at == Starting && forall i :: 0 <= i < |worlds| ==> Honest(c, worlds[i])
      modifies this
      ensures Valid() && at == Idle && live == map[]
      ensures old(trace) + [Event.Recover(ok)] <= trace && Ticks(trace) == Ticks(old(trace)) + |worlds|
    {
      Recover(ok);
      TicksGrown(old(trace), trace);
      for i := 0 to |worlds|
        invariant Valid() && at == Idle && old(trace) + [Event.Recover(ok)] <= trace
        invariant Ticks(trace) == Ticks(old(trace)) + i
      {
        PauseAndTick(pauses(i), worlds[i]);
      }
      NoFlights();
    }

    /** The process dies anywhere outside its own statements and is started again: only the queue survives. */
    method CrashAndRestart()
      requires Valid() && at != Down
      modifies this
      ensures Valid() && at == Starting && table == old(table) && clock == old(clock) && live == map[]
    {
      ghost var s := View();
      ledger := CrashAll(c, s).ledger;
      live, permits, at := map[], 0, Down;
      Note(s, Crash);
      s := View();
      at := Starting;
      Note(s, Restart);
    }
  }

  lemma {:induction false} GrantsBounded(w: World, n: nat)
    ensures Grants(w, n) <= n
  {
    if n > 0 { GrantsBounded(w, n - 1); }
  }
}
