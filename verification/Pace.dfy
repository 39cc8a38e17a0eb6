/** A task that loops on a positive period never runs early (src/example_timer.cpp:26-34,
    include/coro/awaitable_timer.hpp:36-43), whatever the other tasks of its scheduler do. */
module Pace {
  import opened Sequences
  import opened WakeOrder
  import opened OrderedRuns
  import opened TimedRuns

  /** How often `task` was resumed. */
  function Resumptions(log: seq<Ran<int>>, task: nat): nat {
    Count(log, Resumes(task))
  }

  function Resumes(task: nat): Ran<int> -> bool { (r: Ran<int>) => r.item.handle.task == task }

  ghost predicate Absent(ws: seq<Item<int>>, task: nat) {
    forall i :: 0 <= i < |ws| ==> ws[i].handle.task != task
  }

  ghost predicate NoAwait(awaits: seq<Await>, task: nat) {
    forall i :: 0 <= i < |awaits| ==> awaits[i].task != task
  }

  /** Resumed, the looping task awaits its period again at most once before `resume` returns.  A zero
      delay does not suspend. */
  ghost predicate OneAwait(awaits: seq<Await>, task: nat, period: nat) {
    && (forall i :: 0 <= i < |awaits| && awaits[i].task == task ==> awaits[i].delay == period || awaits[i].delay == 0)
    && (forall i, j :: 0 <= i < j < |awaits| && awaits[i].task == task ==> awaits[j].task != task)
  }

  /** Nobody but the looping task itself inserts it; all else is free. */
  ghost predicate Looping(t: Timed, ev: TimedEvent, task: nat, period: nat) {
    match ev
    case Tick(_) => true
    case Start(other, _) => other != task
    case Wake(reading, awaits) =>
      && reading <= t.clock
      && var p := FirstReady(DELAY, t.sys.waiting, reading);
         p < |t.sys.waiting| ==>
           if t.sys.waiting[p].handle.task == task then OneAwait(awaits, task, period) else NoAwait(awaits, task)
  }

  ghost predicate LoopingRun(t: Timed, evs: seq<TimedEvent>, task: nat, period: nat) {
    forall i :: 0 <= i < |evs| ==> Looping(TimedRun(t, evs[..i]), evs[i], task, period)
  }

  /** The j-th resumption of the task was called with a reading later than start + j * period. */
  ghost predicate OnPace(log: seq<Ran<int>>, task: nat, ns: nat, start: int) {
    forall i :: 0 <= i < |log| && log[i].item.handle.task == task ==>
      log[i].current > start + Resumptions(log[..i + 1], task) * ns
  }

  ghost predicate WaitsOnPace(ws: seq<Item<int>>, task: nat, due: int) {
    && (forall i :: 0 <= i < |ws| && ws[i].handle.task == task ==> ws[i].cond >= due)
    && (forall i, j :: 0 <= i < j < |ws| && ws[i].handle.task == task ==> ws[j].handle.task != task)
  }

  ghost predicate PaceInv(t: Timed, task: nat, ns: nat, start: int) {
    var n := Resumptions(t.sys.log, task);
    && OnPace(t.sys.log, task, ns, start)
    && WaitsOnPace(t.sys.waiting, task, start + (n + 1) * ns)
    && t.clock >= start + n * ns
  }

  lemma InsertOnPace(ws: seq<Item<int>>, k: nat, e: Item<int>, task: nat, due: int)
    requires k <= |ws| && WaitsOnPace(ws, task, due)
    requires e.handle.task == task ==> Absent(ws, task) && e.cond >= due
    ensures WaitsOnPace(InsertAt(ws, k, e), task, due)
    ensures e.handle.task != task && Absent(ws, task) ==> Absent(InsertAt(ws, k, e), task)
  {
    var ws' := InsertAt(ws, k, e);
    assert forall i :: 0 <= i < |ws'| ==> ws'[i] == if i < k then ws[i] else if i == k then e else ws[i - 1];
  }

  lemma RemoveOnPace(ws: seq<Item<int>>, k: nat, task: nat, due: int, due': int)
    requires k < |ws| && WaitsOnPace(ws, task, due)
    ensures WaitsOnPace(RemoveAt(ws, k), task, due)
    ensures ws[k].handle.task == task ==> Absent(RemoveAt(ws, k), task) && WaitsOnPace(RemoveAt(ws, k), task, due')
  {
    var ws' := RemoveAt(ws, k);
    assert forall i :: 0 <= i < |ws'| ==> ws'[i] == if i < k then ws[i] else ws[i + 1];
  }

  lemma RestOfAwaits(awaits: seq<Await>, task: nat, period: nat)
    requires awaits != [] && OneAwait(awaits, task, period)
    ensures OneAwait(awaits[1..], task, period)
    ensures awaits[0].task == task || NoAwait(awaits, task) ==> NoAwait(awaits[1..], task)
  {
  }

  lemma PutOnPace(t: Timed, other: nat, delay: nat, task: nat, due: int)
    requires WaitsOnPace(t.sys.waiting, task, due)
    requires other == task ==> Absent(t.sys.waiting, task) && t.clock + NS_PER_US * delay >= due
    ensures WaitsOnPace(PutDelay(t, other, delay).sys.waiting, task, due)
    ensures other != task && Absent(t.sys.waiting, task) ==> Absent(PutDelay(t, other, delay).sys.waiting, task)
  {
    hide WaitsOnPace, Absent;
    var e := Entry(Stamp(other, |t.sys.accepted|), t.clock + NS_PER_US * delay);
    InsertOnPace(t.sys.waiting, InsertPos(DELAY, t.sys.waiting, e.cond), e, task, due);
  }

  lemma AwaitOnPace(t: Timed, a: Await, task: nat, period: nat, due: int)
    requires period > 0 && WaitsOnPace(t.sys.waiting, task, due)
    requires a.task == task && a.delay > 0 ==>
               Absent(t.sys.waiting, task) && a.delay == period && t.clock + NS_PER_US * period >= due
    ensures WaitsOnPace(DoAwait(t, a).sys.waiting, task, due)
    ensures a.task != task && Absent(t.sys.waiting, task) ==> Absent(DoAwait(t, a).sys.waiting, task)
  {
    hide WaitsOnPace, Absent;
    if a.delay > 0 {
      PutOnPace(t.(clock := t.clock + a.elapse), a.task, a.delay, task, due);
    }
  }

  lemma {:induction false} AwaitsOnPace(t: Timed, awaits: seq<Await>, task: nat, period: nat, due: int)
    requires period > 0 && OneAwait(awaits, task, period) && WaitsOnPace(t.sys.waiting, task, due)
    requires NoAwait(awaits, task) || (Absent(t.sys.waiting, task) && t.clock + NS_PER_US * period >= due)
    ensures WaitsOnPace(DoAwaits(t, awaits).sys.waiting, task, due)
    decreases |awaits|
  {
    if awaits != [] {
      RestOfAwaits(awaits, task, period);
      AwaitOnPace(t, awaits[0], task, period, due);
      AwaitsOnPace(DoAwait(t, awaits[0]), awaits[1..], task, period, due);
    }
  }

  lemma LogOnPace(log: seq<Ran<int>>, r: Ran<int>, task: nat, ns: nat, start: int)
    requires OnPace(log, task, ns, start)
    requires r.item.handle.task == task ==> r.current > start + (Resumptions(log, task) + 1) * ns
    ensures OnPace(log + [r], task, ns, start)
    ensures Resumptions(log + [r], task) == Resumptions(log, task) + if r.item.handle.task == task then 1 else 0
  {
    var log' := log + [r];
    CountLast(log, r, Resumes(task));
    assert log'[..|log|] == log && log'[..|log| + 1] == log';
    assert forall i {:trigger log'[i]} :: 0 <= i < |log| ==> log'[..i + 1] == log[..i + 1];
  }

  lemma WakeOnPace(t: Timed, reading: int, awaits: seq<Await>, task: nat, period: nat, start: int)
    requires period > 0 && PaceInv(t, task, NS_PER_US * period, start)
    requires Looping(t, Wake(reading, awaits), task, period)
    ensures PaceInv(TimedStep(t, Wake(reading, awaits)), task, NS_PER_US * period, start)
  {
    hide WaitsOnPace, Absent, OneAwait, OnPace, Resumptions, FirstReady, DoAwaits;
    var ws, p, ns := t.sys.waiting, FirstReady(DELAY, t.sys.waiting, reading), NS_PER_US * period;
    if p < |ws| {
      var t1 := TakeAt(t, reading);
      var n := Resumptions(t.sys.log, task);
      var due := start + (n + 1) * ns;
      WaitingCond(ws, p, task, due);
      RemoveOnPace(ws, p, task, due, due + ns);
      LogOnPace(t.sys.log, Ran(ws[p], reading), task, ns, start);
      AwaitsKeepLog(t1, awaits);
      NoAwaitIsOneAwait(awaits, task, period);
      AwaitsOnPace(t1, awaits, task, period, if ws[p].handle.task == task then due + ns else due);
    }
  }

  lemma WaitingCond(ws: seq<Item<int>>, p: nat, task: nat, due: int)
    requires p < |ws| && WaitsOnPace(ws, task, due)
    ensures ws[p].handle.task == task ==> ws[p].cond >= due
  {
  }

  lemma NoAwaitIsOneAwait(awaits: seq<Await>, task: nat, period: nat)
    ensures NoAwait(awaits, task) ==> OneAwait(awaits, task, period)
  {
  }

  lemma StepOnPace(t: Timed, ev: TimedEvent, task: nat, period: nat, start: int)
    requires period > 0 && PaceInv(t, task, NS_PER_US * period, start) && Looping(t, ev, task, period)
    ensures PaceInv(TimedStep(t, ev), task, NS_PER_US * period, start)
  {
    hide WaitsOnPace, OnPace, Resumptions;
    match ev
    case Tick(_) =>
    case Start(other, delay) =>
      PutOnPace(t, other, delay, task, start + (Resumptions(t.sys.log, task) + 1) * (NS_PER_US * period));
    case Wake(reading, awaits) => WakeOnPace(t, reading, awaits, task, period, start);
  }

  lemma {:induction false} RunOnPace(t: Timed, evs: seq<TimedEvent>, task: nat, period: nat, start: int)
    requires period > 0 && PaceInv(t, task, NS_PER_US * period, start) && LoopingRun(t, evs, task, period)
    ensures PaceInv(TimedRun(t, evs), task, NS_PER_US * period, start)
  {
    hide WaitsOnPace, OnPace, Resumptions, Looping;
    if evs != [] {
      var n := |evs| - 1;
      var t1 := TimedRun(t, evs[..n]);
      forall i | 0 <= i < n ensures Looping(TimedRun(t, evs[..n][..i]), evs[..n][i], task, period) {
        assert evs[..n][..i] == evs[..i];
      }
      assert Looping(t1, evs[n], task, period);
      RunOnPace(t, evs[..n], task, period, start);
      StepOnPace(t1, evs[n], task, period, start);
    }
  }

  /** A task that starts looping on a positive period at time `t.clock` is resumed for the j-th time
      only by a reading later than start + j * period, for every j and any other tasks.  Readings are
      in nanoseconds, periods in microseconds. */
  lemma NeverEarly(t: Timed, evs: seq<TimedEvent>, task: nat, period: nat)
    requires period > 0 && Absent(t.sys.waiting, task) && Resumptions(t.sys.log, task) == 0
    requires LoopingRun(PutDelay(t, task, period), evs, task, period)
    ensures var log := TimedRun(PutDelay(t, task, period), evs).sys.log;
            forall i :: 0 <= i < |log| && log[i].item.handle.task == task ==>
              log[i].current > t.clock + Resumptions(log[..i + 1], task) * (1000 * period)
  {
    StartOnPace(t, task, period);
    RunOnPace(PutDelay(t, task, period), evs, task, period, t.clock);
  }

  lemma StartOnPace(t: Timed, task: nat, period: nat)
    requires Absent(t.sys.waiting, task) && Resumptions(t.sys.log, task) == 0
    ensures PaceInv(PutDelay(t, task, period), task, NS_PER_US * period, t.clock)
  {
    PutOnPace(t, task, period, task, t.clock + NS_PER_US * period);
    CountNone(t.sys.log, Resumes(task));
  }
}
