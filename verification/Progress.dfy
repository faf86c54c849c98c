/**
 A tick is never stuck and never endless: until it has returned, some step of the
 dispatcher or of a task is possible without any fault, and no schedule can take
 more than a bounded number of such steps. So rounds exist, and with the clock running
 they can finish all mail from every reachable state.
 */
module Progress {
  import opened Mails
  import opened QueueTable
  import opened Protocol
  import opened Safety
  import opened Guarantees
  import opened TickRefinement
  import opened Rounds
  import opened Liveness
  import opened Finishing

  /** Steps of a running tick, as opposed to those of the ingress, the clock and process control. */
  predicate TickWork(e: Event) {
    !e.Advance? && !e.Enqueue? && !e.TickStart? && !e.Crash? && !e.Restart? && !e.Recover?
  }

  function TaskStep(c: Config, s: State, h: nat): Event
    requires h in s.live
  {
    match s.live[h].phase
    case Spawned => if HasTransport(c, s.live[h].mail) then BeginSend(h) else Refuse(h)
    case InSend => SendDone(h, Delivered)
    case Recording(_, _) => Record(h)
  }

  lemma AlwaysAStep(c: Config, s: State) returns (e: Event)
    requires Keyed(s.table) && (InTick(s.pc) ==> s.permits + |s.live| == c.concurrency >= 1)
    requires s.pc != Down && s.pc != Idle
    ensures Enabled(c, s, e) && FaultFree(e)
    ensures if s.pc == Starting then e == Recover(true) else TickWork(e)
  {
    match s.pc
    case Starting => e := Recover(true);
    case Reclaiming(_) => e := Reclaim(true);
    case Fetching(now) =>
      var batch := FetchExists(s.table, c.batchSize, now);
      e := Fetch(batch);
    case Claiming(rest) => e := if rest == [] then ClaimsDone else Claim(Granted);
    case Waiting(_, _) =>
      if s.permits > 0 {
        e := Spawn;
      } else {
        assert |s.live| >= 1;
        var h :| h in s.live;
        e := TaskStep(c, s, h);
      }
    case Joining =>
      if s.live == map[] {
        e := TickEnd;
      } else {
        var h :| h in s.live;
        e := TaskStep(c, s, h);
      }
  }

  /** With a positive concurrency limit a tick that satisfies the invariant can always go on, without a fault. */
  lemma NeverStuck(c: Config, s: State) returns (e: Event)
    requires ValidConfig(c) && Inv(c, s) && s.pc != Down && s.pc != Idle
    ensures Enabled(c, s, e) && FaultFree(e)
    ensures if s.pc == Starting then e == Recover(true) else TickWork(e)
  {
    assert Keyed(s.table) && (InTick(s.pc) ==> s.permits + |s.live| == c.concurrency);
    e := AlwaysAStep(c, s);
  }

  // ----- bounded work -----

  function PcSteps(c: Config, pc: Pc): nat {
    match pc
    case Reclaiming(_) => 5 * c.batchSize + 4
    case Fetching(_) => 5 * c.batchSize + 3
    case Claiming(rest) => 5 * |rest| + 2
    case Waiting(_, rest) => 5 * |rest| + 6
    case Joining => 1
    case _ => 0
  }

  function Unrecorded(live: map<nat, Task>): set<nat> { set h | h in live && !live[h].phase.Recording? }

  function Unstarted(live: map<nat, Task>): set<nat> { set h | h in live && live[h].phase.Spawned? }

  /** Three steps per task: begin, answer, record. */
  function LiveSteps(live: map<nat, Task>): nat { |live| + |Unrecorded(live)| + |Unstarted(live)| }

  function StepsLeft(c: Config, s: State): nat { PcSteps(c, s.pc) + LiveSteps(s.live) }

  lemma FinishShrinks(live: map<nat, Task>, h: nat)
    requires h in live
    ensures LiveSteps(live - {h}) < LiveSteps(live)
  {
    var rest := live - {h};
    assert rest.Keys == live.Keys - {h} && |rest| == |rest.Keys| && |live| == |live.Keys|;
    assert Unrecorded(rest) == Unrecorded(live) - {h};
    assert Unstarted(rest) == Unstarted(live) - {h};
  }

  lemma PhaseShrinks(live: map<nat, Task>, h: nat, phase: Phase)
    requires h in live && !phase.Spawned?
    requires live[h].phase.Spawned? || (live[h].phase.InSend? && phase.Recording?)
    ensures LiveSteps(live[h := live[h].(phase := phase)]) < LiveSteps(live)
  {
    var live' := live[h := live[h].(phase := phase)];
    assert live'.Keys == live.Keys && |live'| == |live'.Keys| && |live| == |live.Keys|;
    assert Unstarted(live') == Unstarted(live) - {h};
    if phase.Recording? {
      assert Unrecorded(live') == Unrecorded(live) - {h};
    } else {
      assert Unrecorded(live') == Unrecorded(live);
    }
  }

  lemma SpawnCosts(live: map<nat, Task>, h: nat, m: Mail)
    requires h !in live
    ensures LiveSteps(live[h := Task(m, Spawned)]) == LiveSteps(live) + 3
  {
    var live' := live[h := Task(m, Spawned)];
    assert live'.Keys == live.Keys + {h} && |live'| == |live'.Keys| && |live| == |live.Keys|;
    assert Unrecorded(live') == Unrecorded(live) + {h};
    assert Unstarted(live') == Unstarted(live) + {h};
  }

  lemma TaskWorkShrinks(c: Config, s: State, e: Event)
    requires Enabled(c, s, e) && (e.BeginSend? || e.Refuse? || e.SendDone? || e.Record? || e.TaskLost?)
    ensures StepsLeft(c, Next(c, s, e)) < StepsLeft(c, s)
  {
    match e
    case BeginSend(h) => PhaseShrinks(s.live, h, InSend);
    case Refuse(h) => PhaseShrinks(s.live, h, Recording(Errored(NO_TRANSPORT), s.clock));
    case SendDone(h, result) => PhaseShrinks(s.live, h, Recording(result, s.clock));
    case Record(h) => FinishShrinks(s.live, h); RecordFinishes(c, s, h);
    case TaskLost(h) => FinishShrinks(s.live, h); TaskLostFinishes(c, s, h);
  }

  lemma WorkShrinks(c: Config, s: State, e: Event)
    requires s.nextHandle !in s.live && Enabled(c, s, e) && TickWork(e)
    ensures StepsLeft(c, Next(c, s, e)) < StepsLeft(c, s)
  {
    if e.Spawn? {
      SpawnCosts(s.live, s.nextHandle, s.pc.mail);
    } else if e.BeginSend? || e.Refuse? || e.SendDone? || e.Record? || e.TaskLost? {
      TaskWorkShrinks(c, s, e);
    }
  }

  function WorkDone(es: seq<Event>): nat {
    if es == [] then 0 else (if TickWork(es[0]) then 1 else 0) + WorkDone(es[1..])
  }

  lemma OneStepOfWork(c: Config, s: State, e: Event)
    requires ValidConfig(c) && Inv(c, s) && Enabled(c, s, e) && WithinTick(e) && s.pc != Down && s.pc != Starting
    ensures var s' := Next(c, s, e);
            && StepsLeft(c, s') + (if TickWork(e) then 1 else 0) <= StepsLeft(c, s)
            && Inv(c, s') && s'.pc != Down && s'.pc != Starting
  {
    if TickWork(e) {
      assert s.nextHandle !in s.live;
      WorkShrinks(c, s, e);
    }
    TickStays(c, s, e);
    StepKeepsInv(c, s, e);
  }

  /** However scheduled and whatever fails, the work within a tick is bounded by what is left of it. */
  lemma {:induction false} WorkBounded(c: Config, s: State, es: seq<Event>)
    requires ValidConfig(c) && Inv(c, s) && IsRun(c, s, es)
    requires forall i :: 0 <= i < |es| ==> WithinTick(es[i])
    requires s.pc != Down && s.pc != Starting
    ensures WorkDone(es) + StepsLeft(c, After(c, s, es)) <= StepsLeft(c, s)
    decreases es
  {
    if es != [] {
      var s' := Next(c, s, es[0]);
      OneStepOfWork(c, s, es[0]);
      WorkBounded(c, s', es[1..]);
    }
  }

  lemma TickStays(c: Config, s: State, e: Event)
    requires Enabled(c, s, e) && WithinTick(e) && s.pc != Down && s.pc != Starting
    ensures Next(c, s, e).pc != Down && Next(c, s, e).pc != Starting
  {
  }

  /** From its start a tick does at most `5 * batch_size + 4` steps, and one that can do none has returned. */
  lemma TickTerminates(c: Config, s: State, es: seq<Event>)
    requires ValidConfig(c) && Inv(c, s) && s.pc == Idle && IsRun(c, Next(c, s, TickStart), es)
    requires forall i :: 0 <= i < |es| ==> WithinTick(es[i])
    ensures WorkDone(es) <= 5 * c.batchSize + 4
    ensures WorkDone(es) == 5 * c.batchSize + 4 ==> After(c, Next(c, s, TickStart), es).pc == Idle
  {
    var s1 := Next(c, s, TickStart);
    StepKeepsInv(c, s, TickStart);
    assert LiveSteps(s1.live) == 0 by {
      assert Unrecorded(s1.live) == {} && Unstarted(s1.live) == {};
    }
    WorkBounded(c, s1, es);
    NoStepsLeftMeansIdle(c, s1, es);
  }

  lemma {:induction false} NoStepsLeftMeansIdle(c: Config, s: State, es: seq<Event>)
    requires IsRun(c, s, es) && s.pc != Down && s.pc != Starting
    requires forall i :: 0 <= i < |es| ==> WithinTick(es[i])
    ensures StepsLeft(c, After(c, s, es)) == 0 ==> After(c, s, es).pc == Idle
    decreases es
  {
    if es != [] {
      TickStays(c, s, es[0]);
      NoStepsLeftMeansIdle(c, Next(c, s, es[0]), es[1..]);
    }
  }

  // ----- continuations exist -----

  /** Fault-free work of a tick, and nothing else. */
  ghost predicate OnlyWork(es: seq<Event>) {
    forall i :: 0 <= i < |es| ==> TickWork(es[i]) && FaultFree(es[i])
  }

  predicate Ticking(pc: Pc) { pc != Down && pc != Starting && pc != Idle }

  /** A tick under way can be brought to its end without a fault. */
  lemma {:induction false} TickCanEnd(c: Config, s: State) returns (es: seq<Event>)
    requires ValidConfig(c) && Inv(c, s) && (Ticking(s.pc) || s.pc == Idle)
    ensures IsRun(c, s, es) && OnlyWork(es) && After(c, s, es).pc == Idle
    decreases StepsLeft(c, s)
  {
    if s.pc == Idle {
      es := [];
    } else {
      var e := NeverStuck(c, s);
      var s' := Next(c, s, e);
      assert StepsLeft(c, s') < StepsLeft(c, s) && Inv(c, s') && (Ticking(s'.pc) || s'.pc == Idle) by {
        OneStepOfWork(c, s, e);
      }
      var rest := TickCanEnd(c, s');
      es := [e] + rest;
      assert es[0] == e && es[1..] == rest;
    }
  }

  /** From every idle state a fault-free round is possible. */
  lemma RoundExists(c: Config, s: State) returns (es: seq<Event>)
    requires ValidConfig(c) && Inv(c, s) && s.pc == Idle
    ensures Round(c, s, es) && NoEnqueue(es) && OnlyWork(es[1..])
  {
    StepKeepsInv(c, s, TickStart);
    var rest := TickCanEnd(c, Next(c, s, TickStart));
    es := [TickStart] + rest;
    assert es[0] == TickStart && es[1..] == rest;
  }

  /** Joins two runs. */
  lemma RunsJoin(c: Config, s: State, es: seq<Event>, more: seq<Event>)
    requires IsRun(c, s, es) && IsRun(c, After(c, s, es), more)
    ensures IsRun(c, s, es + more) && After(c, s, es + more) == After(c, After(c, s, es), more)
  {
    assert (es + more)[..|es|] == es && (es + more)[|es|..] == more;
    RunSplit(c, s, es + more, |es|);
  }

  /** Without a fault, without a crash and without new mail. */
  ghost predicate Smooth(es: seq<Event>) {
    forall i :: 0 <= i < |es| ==> FaultFree(es[i]) && !es[i].Enqueue? && es[i] != Recover(false)
  }

  /** Waiting makes some unfinished mail ready. */
  lemma WaitingHelps(c: Config, s: State) returns (to: int)
    requires Inv(c, s) && !AllTerminal(s.table)
    ensures s.clock <= to && HasReady(c, s.(clock := to)) && Inv(c, s.(clock := to))
  {
    var id :| id in s.table && !Terminal(s.table[id]);
    var m := s.table[id];
    to := if m.status == Sending then m.updatedAt + c.lease + 1 else m.nextAttemptAt;
    if to < s.clock { to := s.clock; }
    assert Ready(c, to, m);
    ClockKeepsInv(c, s, to);
  }

  lemma ReadyRoundUsesBudget(c: Config, s: State, round: seq<Event>)
    requires ValidConfig(c) && Inv(c, s) && HasReady(c, s) && Round(c, s, round) && NoEnqueue(round)
    ensures var s' := After(c, s, round);
            && Inv(c, s') && s'.table.Keys == s.table.Keys
            && Budget(c, s'.table, s'.table.Keys) < Budget(c, s.table, s.table.Keys)
  {
    var s' := After(c, s, round);
    assert s'.table.Keys == s.table.Keys by { RunKeys(c, s, round); }
    assert Budget(c, s'.table, s'.table.Keys) < Budget(c, s.table, s.table.Keys) by {
      ReadyRoundProcesses(c, s, round);
      RoundSpends(c, s, round);
      assert |s'.table.Keys - s.table.Keys| == 0;
    }
    assert Inv(c, s') by { RoundKeepsInv(c, s, round); }
  }

  lemma AdvanceFirst(c: Config, s: State, to: int, es: seq<Event>)
    requires s.clock <= to && IsRun(c, s.(clock := to), es)
    ensures IsRun(c, s, [Advance(to)] + es) && After(c, s, [Advance(to)] + es) == After(c, s.(clock := to), es)
  {
    var all := [Advance(to)] + es;
    assert all[0] == Advance(to) && all[1..] == es;
  }

  lemma RoundIsSmooth(c: Config, s: State, to: int, round: seq<Event>)
    requires Round(c, s, round) && NoEnqueue(round) && OnlyWork(round[1..])
    ensures Smooth([Advance(to)] + round)
  {
    var all := [Advance(to)] + round;
    assert forall i :: 2 <= i < |all| ==> all[i] == round[1..][i - 2];
  }

  /** From an idle state, waiting and one round use up budget. */
  lemma OneMoreRound(c: Config, s: State) returns (es: seq<Event>)
    requires ValidConfig(c) && Inv(c, s) && s.pc == Idle && !AllTerminal(s.table)
    ensures IsRun(c, s, es) && Smooth(es)
    ensures var s' := After(c, s, es);
            && Inv(c, s') && s'.pc == Idle && s'.table.Keys == s.table.Keys
            && Budget(c, s'.table, s'.table.Keys) < Budget(c, s.table, s.table.Keys)
  {
    var to := WaitingHelps(c, s);
    var s1 := s.(clock := to);
    var round := RoundExists(c, s1);
    ReadyRoundUsesBudget(c, s1, round);
    es := [Advance(to)] + round;
    AdvanceFirst(c, s, to, round);
    RoundIsSmooth(c, s1, to, round);
  }

  lemma {:induction false} IdleCanFinish(c: Config, s: State) returns (es: seq<Event>)
    requires ValidConfig(c) && Inv(c, s) && s.pc == Idle
    ensures IsRun(c, s, es) && Smooth(es)
    ensures AllTerminal(After(c, s, es).table) && After(c, s, es).table.Keys == s.table.Keys
    decreases Budget(c, s.table, s.table.Keys)
  {
    if AllTerminal(s.table) {
      es := [];
    } else {
      var first := OneMoreRound(c, s);
      var rest := IdleCanFinish(c, After(c, s, first));
      RunsJoin(c, s, first, rest);
      es := first + rest;
    }
  }

  /** From any state, back to waiting for the next tick. */
  lemma CanBecomeIdle(c: Config, s: State) returns (es: seq<Event>)
    requires ValidConfig(c) && Inv(c, s)
    ensures IsRun(c, s, es) && Smooth(es) && After(c, s, es).pc == Idle
    ensures Inv(c, After(c, s, es)) && After(c, s, es).table.Keys == s.table.Keys
  {
    if s.pc == Down {
      es := [Restart, Recover(true)];
      var s1 := Next(c, s, Restart);
      assert es[1..] == [Recover(true)] && es[1..][1..] == [];
      assert IsRun(c, s1, es[1..]) && After(c, s1, es[1..]) == Next(c, s1, Recover(true));
    } else if s.pc == Starting {
      es := [Recover(true)];
      assert es[1..] == [];
    } else {
      es := TickCanEnd(c, s);
    }
    RunKeepsInv(c, s, es);
    RunKeys(c, s, es);
  }

  /** From every reachable state some continuation without a further fault leaves every mail sent or dead. */
  lemma EveryStateCanFinish(c: Config, s: State) returns (es: seq<Event>)
    requires ValidConfig(c) && Reachable(c, s)
    ensures IsRun(c, s, es) && Smooth(es)
    ensures AllTerminal(After(c, s, es).table) && After(c, s, es).table.Keys == s.table.Keys
  {
    assert Inv(c, s) by { ReachableInv(c, s); }
    var first := CanBecomeIdle(c, s);
    var rest := IdleCanFinish(c, After(c, s, first));
    RunsJoin(c, s, first, rest);
    es := first + rest;
  }
}
