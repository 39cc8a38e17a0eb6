/** The creation of the periodic tasks and their loop are timed runs, so what holds of every timed run
    holds of them. */
module PeriodicRuns {
  import opened Sequences
  import opened WakeOrder
  import opened OrderedRuns
  import opened TimedRuns
  import opened Pace
  import PeriodicTasks

  type Sys = PeriodicTasks.Sys

  /** The same clock, the same list, the same tasks resumed. */
  ghost predicate Same(cap: nat, s: Sys, t: Timed) {
    && t.sys.cap == cap && t.clock == s.clock
    && Visible(t.sys.waiting) == s.waiting
    && Ids(t.sys.log) == s.ran
  }

  function StartEvents(s: Sys, gap: nat, period: nat, count: nat): seq<TimedEvent> {
    [Tick(gap)] + if period == 0 || count == 0 then [] else [Start(|s.left|, period)]
  }

  /** The resumed task lets some time pass and awaits its period, or finishes. */
  function IterateEvents(periods: seq<nat>, s: Sys, a: PeriodicTasks.Advance): seq<TimedEvent>
    requires |s.left| == |periods|
  {
    if s.waiting != [] && s.waiting[0].cond < s.clock && s.waiting[0].handle < |s.left| then
      var h := s.waiting[0].handle;
      [Wake(s.clock, [Await(a.before, h, if s.left[h] > 1 then periods[h] else 0)]), Tick(a.after)]
    else [Wake(s.clock, []), Tick(a.before + a.after)]
  }

  lemma PutIsInsert(t: Timed, h: nat, delay: nat)
    ensures var t' := PutDelay(t, h, delay);
            && t'.clock == t.clock && t'.sys.cap == t.sys.cap && t'.sys.log == t.sys.log
            && Visible(t'.sys.waiting)
               == Insert(DELAY, t.sys.cap, Visible(t.sys.waiting), Entry(h, t.clock + NS_PER_US * delay))
  {
    hide Insert, FirstReady;
    MainIsInsert(DELAY, t.sys, Put(h, t.clock + NS_PER_US * delay));
  }

  lemma RunOne(t: Timed, e: TimedEvent)
    ensures TimedRun(t, [e]) == TimedStep(t, e)
    ensures NotAhead(t, e) ==> Honest(t, [e])
  {
    assert [e][..0] == [];
    assert TimedRun(t, []) == t;
  }

  lemma {:induction false} RunAppend(t: Timed, a: seq<TimedEvent>, b: seq<TimedEvent>)
    ensures TimedRun(t, a + b) == TimedRun(TimedRun(t, a), b)
  {
    if b == [] {
      assert a + b == a;
    } else {
      var n := |b| - 1;
      RunAppend(t, a, b[..n]);
      assert (a + b)[..|a + b| - 1] == a + b[..n];
    }
  }

  lemma HonestAppend(t: Timed, a: seq<TimedEvent>, b: seq<TimedEvent>)
    requires Honest(t, a) && Honest(TimedRun(t, a), b)
    ensures Honest(t, a + b)
  {
    hide TimedRun, NotAhead;
    forall i | 0 <= i < |a + b| ensures NotAhead(TimedRun(t, (a + b)[..i]), (a + b)[i]) {
      if i < |a| {
        assert (a + b)[..i] == a[..i];
      } else {
        assert (a + b)[..i] == a + b[..i - |a|];
        RunAppend(t, a, b[..i - |a|]);
        assert (a + b)[i] == b[i - |a|];
      }
    }
  }

  lemma RunTwo(t: Timed, e1: TimedEvent, e2: TimedEvent)
    requires NotAhead(t, e1) && NotAhead(TimedStep(t, e1), e2)
    ensures TimedRun(t, [e1, e2]) == TimedStep(TimedStep(t, e1), e2) && Honest(t, [e1, e2])
  {
    hide TimedRun, TimedStep, NotAhead, Honest;
    RunOne(t, e1);
    RunOne(TimedStep(t, e1), e2);
    RunAppend(t, [e1], [e2]);
    HonestAppend(t, [e1], [e2]);
    assert [e1] + [e2] == [e1, e2];
  }

  lemma StartIsTimed(cap: nat, s: Sys, t: Timed, gap: nat, period: nat, count: nat)
    requires Same(cap, s, t)
    ensures var evs := StartEvents(s, gap, period, count);
            && Honest(t, evs)
            && Same(cap, PeriodicTasks.StartTask(cap, s.(clock := s.clock + gap), period, count), TimedRun(t, evs))
  {
    hide TimedRun, Honest, Insert, DoPut;
    var t1 := TimedStep(t, Tick(gap));
    if period == 0 || count == 0 {
      assert StartEvents(s, gap, period, count) == [Tick(gap)];
      RunOne(t, Tick(gap));
    } else {
      assert StartEvents(s, gap, period, count) == [Tick(gap), Start(|s.left|, period)];
      RunTwo(t, Tick(gap), Start(|s.left|, period));
      PutIsInsert(t1, |s.left|, period);
    }
  }

  lemma HeadOf(s: Sys, t: Timed, cap: nat)
    requires Same(cap, s, t) && s.waiting != []
    ensures t.sys.waiting != [] && t.sys.waiting[0].cond == s.waiting[0].cond
    ensures t.sys.waiting[0].handle.task == s.waiting[0].handle
    ensures Visible(t.sys.waiting[1..]) == s.waiting[1..]
  {
    assert Visible(t.sys.waiting)[0] == s.waiting[0];
    assert Visible(t.sys.waiting[1..]) == Visible(t.sys.waiting)[1..];
  }

  lemma OneAwaitIs(t: Timed, a: Await)
    ensures DoAwaits(t, [a]) == DoAwait(t, a)
  {
    assert DoAwaits(DoAwait(t, a), [a][1..]) == DoAwait(t, a);
  }

  /** An iteration with the head ready. */
  lemma RunningIsTimed(cap: nat, periods: seq<nat>, s: Sys, a: PeriodicTasks.Advance, t: Timed)
    requires PeriodicTasks.Inv(periods, s) && Same(cap, s, t) && StampSorted(DELAY, t.sys.waiting)
    requires s.waiting != [] && s.waiting[0].cond < s.clock
    ensures Same(cap, PeriodicTasks.Iterate(cap, periods, s, a), TimedRun(t, IterateEvents(periods, s, a)))
    ensures Honest(t, IterateEvents(periods, s, a))
  {
    hide TimedRun, Honest, Insert, DoPut, StampSorted, FirstReady, PeriodicTasks.Iterate, DoAwaits;
    var h, left := s.waiting[0].handle, s.left;
    PeriodicTasks.WaitingIsSuspended(periods, s, 0);
    PeriodicTasks.IterateRuns(cap, periods, s, a);
    assert PeriodicTasks.TaskWaits(periods, s, h);
    var await := Await(a.before, h, if left[h] > 1 then periods[h] else 0);
    RunTwo(t, Wake(s.clock, [await]), Tick(a.after));
    HeadOf(s, t, cap);
    TakeHead(t, s.clock);
    var t1 := TakeAt(t, s.clock);
    OneAwaitIs(t1, await);
    PutIsInsert(t1.(clock := t1.clock + a.before), h, await.delay);
    assert Ids(t1.sys.log) == s.ran + [h];
    assert PeriodicTasks.Suspended(s, h);
    PeriodicTasks.NextAwaitInserts(cap, periods, s.(clock := s.clock + a.before), s.waiting[1..], h);
  }

  lemma IterateIsTimed(cap: nat, periods: seq<nat>, s: Sys, a: PeriodicTasks.Advance, t: Timed)
    requires PeriodicTasks.Inv(periods, s) && Same(cap, s, t) && StampSorted(DELAY, t.sys.waiting)
    ensures Same(cap, PeriodicTasks.Iterate(cap, periods, s, a), TimedRun(t, IterateEvents(periods, s, a)))
    ensures Honest(t, IterateEvents(periods, s, a))
  {
    hide TimedRun, Honest, PeriodicTasks.Iterate, StampSorted;
    if s.waiting != [] && s.waiting[0].cond < s.clock {
      RunningIsTimed(cap, periods, s, a, t);
    } else {
      PeriodicTasks.IterateIdles(cap, periods, s, a);
      TakeHead(t, s.clock);
      if s.waiting != [] { HeadOf(s, t, cap); }
      RunTwo(t, Wake(s.clock, []), Tick(a.before + a.after));
    }
  }

  /** In an iteration nobody but the resumed task is inserted, and that only to await its period. */
  lemma IterateIsLooping(cap: nat, periods: seq<nat>, s: Sys, a: PeriodicTasks.Advance, t: Timed, h: nat)
    requires PeriodicTasks.Inv(periods, s) && Same(cap, s, t) && StampSorted(DELAY, t.sys.waiting) && h < |periods|
    ensures LoopingRun(t, IterateEvents(periods, s, a), h, periods[h])
  {
    hide StampSorted, FirstReady, DoAwaits;
    var evs := IterateEvents(periods, s, a);
    TakeHead(t, s.clock);
    if s.waiting != [] {
      PeriodicTasks.WaitingIsSuspended(periods, s, 0);
      HeadOf(s, t, cap);
    }
    OnlyHeadRunsAt(t, s.clock);
    assert TimedRun(t, evs[..0]) == t;
    assert Looping(t, evs[0], h, periods[h]);
    forall i | 0 <= i < |evs| ensures Looping(TimedRun(t, evs[..i]), evs[i], h, periods[h]) {}
  }

  lemma OnlyHeadRunsAt(t: Timed, reading: int)
    requires StampSorted(DELAY, t.sys.waiting)
    ensures FirstReady(DELAY, t.sys.waiting, reading) == 0 || FirstReady(DELAY, t.sys.waiting, reading) == |t.sys.waiting|
  {
    DelayAndPriorityAreWakeRelations();
    StampSortedIsSorted(DELAY, t.sys.waiting);
    OnlyHeadRuns(DELAY, t.sys.waiting, reading);
  }

  // ---------------------------------------------------------------- the whole program

  /** The events of the creation of the tasks. */
  function CreationEvents(cap: nat, clock: int, periods: seq<nat>, counts: seq<nat>, gaps: seq<nat>): seq<TimedEvent>
    requires |periods| == |counts| == |gaps|
  {
    if periods == [] then [] else
      var n := |periods| - 1;
      CreationEvents(cap, clock, periods[..n], counts[..n], gaps[..n])
      + StartEvents(PeriodicTasks.StartAll(cap, clock, periods[..n], counts[..n], gaps[..n]), gaps[n], periods[n], counts[n])
  }

  /** The events of n iterations. */
  function LoopEvents(cap: nat, periods: seq<nat>, s: Sys, adv: nat -> PeriodicTasks.Advance, i: nat, n: nat): seq<TimedEvent>
    requires |s.left| == |periods|
    decreases n
  {
    if n == 0 then [] else
      IterateEvents(periods, s, adv(i))
      + LoopEvents(cap, periods, PeriodicTasks.Iterate(cap, periods, s, adv(i)), adv, i + 1, n - 1)
  }

  function ProgramEvents(cap: nat, clock: int, periods: seq<nat>, counts: seq<nat>, gaps: seq<nat>,
                         adv: nat -> PeriodicTasks.Advance, n: nat): seq<TimedEvent>
    requires |periods| == |counts| == |gaps|
  {
    CreationEvents(cap, clock, periods, counts, gaps)
    + LoopEvents(cap, periods, PeriodicTasks.StartAll(cap, clock, periods, counts, gaps), adv, 0, n)
  }

  lemma {:induction false} LoopIsTimed(cap: nat, periods: seq<nat>, s: Sys, adv: nat -> PeriodicTasks.Advance, i: nat, n: nat,
                                       t: Timed)
    requires PeriodicTasks.Inv(periods, s) && |periods| <= cap && TimedInv(t) && Same(cap, s, t)
    ensures var evs := LoopEvents(cap, periods, s, adv, i, n);
            Honest(t, evs) && Same(cap, PeriodicTasks.Loop(cap, periods, s, adv, i, n), TimedRun(t, evs))
    decreases n
  {
    hide TimedRun, Honest, PeriodicTasks.Iterate, Same, IterateEvents;
    if n == 0 {
      RunNone(t);
    } else {
      var s', now := PeriodicTasks.Iterate(cap, periods, s, adv(i)), IterateEvents(periods, s, adv(i));
      var rest := LoopEvents(cap, periods, s', adv, i + 1, n - 1);
      IterateIsTimed(cap, periods, s, adv(i), t);
      PeriodicTasks.IterateKeepsInv(cap, periods, s, adv(i));
      TimedRunKeepsInv(t, now);
      LoopIsTimed(cap, periods, s', adv, i + 1, n - 1, TimedRun(t, now));
      RunAppend(t, now, rest);
      HonestAppend(t, now, rest);
    }
  }

  lemma RunNone(t: Timed)
    ensures TimedRun(t, []) == t && Honest(t, [])
  {
  }

  lemma {:induction false} CreationIsTimed(cap: nat, clock: int, periods: seq<nat>, counts: seq<nat>, gaps: seq<nat>)
    requires |periods| == |counts| == |gaps|
    ensures var evs := CreationEvents(cap, clock, periods, counts, gaps);
            && Honest(Begin(cap, clock), evs)
            && Same(cap, PeriodicTasks.StartAll(cap, clock, periods, counts, gaps), TimedRun(Begin(cap, clock), evs))
  {
    if periods != [] {
      hide TimedRun, Honest, Same, StartEvents;
      var n, t0 := |periods| - 1, Begin(cap, clock);
      var before := CreationEvents(cap, clock, periods[..n], counts[..n], gaps[..n]);
      var s := PeriodicTasks.StartAll(cap, clock, periods[..n], counts[..n], gaps[..n]);
      CreationIsTimed(cap, clock, periods[..n], counts[..n], gaps[..n]);
      StartIsTimed(cap, s, TimedRun(t0, before), gaps[n], periods[n], counts[n]);
      RunAppend(t0, before, StartEvents(s, gaps[n], periods[n], counts[n]));
      HonestAppend(t0, before, StartEvents(s, gaps[n], periods[n], counts[n]));
    }
  }

  /** The program, from the creation of the tasks to any number of iterations, is a timed run. */
  lemma ProgramIsTimed(cap: nat, clock: int, periods: seq<nat>, counts: seq<nat>, gaps: seq<nat>,
                       adv: nat -> PeriodicTasks.Advance, n: nat)
    requires |periods| == |counts| == |gaps| <= cap
    ensures var evs := ProgramEvents(cap, clock, periods, counts, gaps, adv, n);
            && Honest(Begin(cap, clock), evs)
            && Same(cap, PeriodicTasks.Loop(cap, periods, PeriodicTasks.StartAll(cap, clock, periods, counts, gaps), adv, 0, n),
                    TimedRun(Begin(cap, clock), evs))
  {
    hide TimedRun, Honest, Same, PeriodicTasks.Loop, PeriodicTasks.StartAll, PeriodicTasks.Inv, TimedInv, Begin, CreationEvents, LoopEvents;
    var s, created := PeriodicTasks.StartAll(cap, clock, periods, counts, gaps), CreationEvents(cap, clock, periods, counts, gaps);
    PeriodicTasks.StartAllInv(cap, clock, periods, counts, gaps);
    EmptyInv(cap, clock);
    CreationIsTimed(cap, clock, periods, counts, gaps);
    TimedRunKeepsInv(Begin(cap, clock), created);
    LoopIsTimed(cap, periods, s, adv, 0, n, TimedRun(Begin(cap, clock), created));
    RunAppend(Begin(cap, clock), created, LoopEvents(cap, periods, s, adv, 0, n));
    HonestAppend(Begin(cap, clock), created, LoopEvents(cap, periods, s, adv, 0, n));
  }

  /** At every point of the program the tasks resumed so far were resumed strictly in order of expiry
      and, for equal expiries, of insertion, each after its expiry. */
  lemma ProgramInOrder(cap: nat, clock: int, periods: seq<nat>, counts: seq<nat>, gaps: seq<nat>,
                       adv: nat -> PeriodicTasks.Advance, n: nat)
    requires |periods| == |counts| == |gaps| <= cap
    ensures var t := TimedRun(Begin(cap, clock), ProgramEvents(cap, clock, periods, counts, gaps, adv, n));
            var s := PeriodicTasks.StartAll(cap, clock, periods, counts, gaps);
            Same(cap, PeriodicTasks.Loop(cap, periods, s, adv, 0, n), t) && InOrder(t.sys.log)
  {
    hide *;
    ProgramIsTimed(cap, clock, periods, counts, gaps, adv, n);
    ResumedInOrder(cap, clock, ProgramEvents(cap, clock, periods, counts, gaps, adv, n));
  }

  // ---------------------------------------------------------------- the pace of each task

  lemma {:induction false} SumLast(ns: seq<nat>)
    requires ns != []
    ensures PeriodicTasks.Sum(ns) == PeriodicTasks.Sum(ns[..|ns| - 1]) + ns[|ns| - 1]
  {
    if |ns| > 1 {
      SumLast(ns[1..]);
      assert ns[1..][..|ns| - 2] == ns[..|ns| - 1][1..];
    }
  }

  lemma {:induction false} StartClock(cap: nat, clock: int, periods: seq<nat>, counts: seq<nat>, gaps: seq<nat>)
    requires |periods| == |counts| == |gaps|
    ensures PeriodicTasks.StartAll(cap, clock, periods, counts, gaps).clock == clock + PeriodicTasks.Sum(gaps)
  {
    if periods != [] {
      var n := |periods| - 1;
      hide PeriodicTasks.Sum;
      StartClock(cap, clock, periods[..n], counts[..n], gaps[..n]);
      SumLast(gaps);
    } else {
      assert gaps == [];
    }
  }

  /** A task that does not exist yet. */
  lemma NotYet(cap: nat, periods: seq<nat>, s: Sys, t: Timed, h: nat)
    requires PeriodicTasks.Inv(periods, s) && s.ran == [] && Same(cap, s, t) && h >= |periods|
    ensures Absent(t.sys.waiting, h) && Resumptions(t.sys.log, h) == 0
  {
    assert |Ids(t.sys.log)| == 0;
    forall i | 0 <= i < |t.sys.waiting| ensures t.sys.waiting[i].handle.task != h {
      assert Visible(t.sys.waiting)[i] == s.waiting[i];
      PeriodicTasks.WaitingIsSuspended(periods, s, i);
    }
  }

  lemma AbsentOnPace(t: Timed, task: nat, ns: nat, start: int)
    requires Absent(t.sys.waiting, task) && Resumptions(t.sys.log, task) == 0 && start <= t.clock
    ensures PaceInv(t, task, ns, start)
  {
    CountNone(t.sys.log, Resumes(task));
  }

  /** The creation of task h starts its pace, */
  lemma OwnStart(s: Sys, t: Timed, gap: nat, period: nat, count: nat)
    requires Absent(t.sys.waiting, |s.left|) && Resumptions(t.sys.log, |s.left|) == 0
    ensures PaceInv(TimedRun(t, StartEvents(s, gap, period, count)), |s.left|, NS_PER_US * period, t.clock + gap)
  {
    hide TimedRun, PaceInv, Honest;
    var h, t1 := |s.left|, TimedStep(t, Tick(gap));
    if period == 0 || count == 0 {
      assert StartEvents(s, gap, period, count) == [Tick(gap)];
      RunOne(t, Tick(gap));
      AbsentOnPace(t1, h, NS_PER_US * period, t1.clock);
    } else {
      assert StartEvents(s, gap, period, count) == [Tick(gap), Start(h, period)];
      RunTwo(t, Tick(gap), Start(h, period));
      StartOnPace(t1, h, period);
    }
  }

  /** and the creation of the others leaves it alone. */
  lemma OtherStart(s: Sys, t: Timed, gap: nat, period: nat, count: nat, h: nat, pace: nat)
    requires h != |s.left|
    ensures LoopingRun(t, StartEvents(s, gap, period, count), h, pace)
  {
    var evs := StartEvents(s, gap, period, count);
    forall i | 0 <= i < |evs| ensures Looping(TimedRun(t, evs[..i]), evs[i], h, pace) {}
  }

  lemma {:induction false} CreationOnPace(cap: nat, clock: int, periods: seq<nat>, counts: seq<nat>, gaps: seq<nat>, h: nat)
    requires |periods| == |counts| == |gaps| <= cap && h < |periods| && periods[h] > 0
    ensures PaceInv(TimedRun(Begin(cap, clock), CreationEvents(cap, clock, periods, counts, gaps)),
                    h, NS_PER_US * periods[h], clock + PeriodicTasks.Sum(gaps[..h + 1]))
  {
    hide TimedRun, Honest, Same, StartEvents, PeriodicTasks.Sum, PeriodicTasks.Inv, PaceInv, LoopingRun, Absent, Resumptions;
    var n, t0 := |periods| - 1, Begin(cap, clock);
    var before := CreationEvents(cap, clock, periods[..n], counts[..n], gaps[..n]);
    var s, t := PeriodicTasks.StartAll(cap, clock, periods[..n], counts[..n], gaps[..n]), TimedRun(t0, before);
    RunAppend(t0, before, StartEvents(s, gaps[n], periods[n], counts[n]));
    if h == n {
      PeriodicTasks.StartAllInv(cap, clock, periods[..n], counts[..n], gaps[..n]);
      CreationIsTimed(cap, clock, periods[..n], counts[..n], gaps[..n]);
      NotYet(cap, periods[..n], s, t, n);
      OwnStart(s, t, gaps[n], periods[n], counts[n]);
      SameClock(cap, s, t);
      StartClock(cap, clock, periods[..n], counts[..n], gaps[..n]);
      assert gaps[..n + 1] == gaps;
      SumLast(gaps);
    } else {
      CreationOnPace(cap, clock, periods[..n], counts[..n], gaps[..n], h);
      assert gaps[..n][..h + 1] == gaps[..h + 1];
      OtherStart(s, t, gaps[n], periods[n], counts[n], h, periods[h]);
      RunOnPace(t, StartEvents(s, gaps[n], periods[n], counts[n]), h, periods[h], clock + PeriodicTasks.Sum(gaps[..h + 1]));
    }
  }

  lemma SameClock(cap: nat, s: Sys, t: Timed)
    requires Same(cap, s, t)
    ensures t.clock == s.clock
  {
  }

  lemma {:induction false} LoopOnPace(cap: nat, periods: seq<nat>, s: Sys, adv: nat -> PeriodicTasks.Advance, i: nat, n: nat,
                                      t: Timed, h: nat, start: int)
    requires PeriodicTasks.Inv(periods, s) && |periods| <= cap && TimedInv(t) && Same(cap, s, t)
    requires h < |periods| && periods[h] > 0 && PaceInv(t, h, NS_PER_US * periods[h], start)
    ensures PaceInv(TimedRun(t, LoopEvents(cap, periods, s, adv, i, n)), h, NS_PER_US * periods[h], start)
    decreases n
  {
    hide TimedRun, Honest, PeriodicTasks.Iterate, Same, IterateEvents, PaceInv, LoopingRun;
    if n == 0 {
      RunNone(t);
    } else {
      var s', now := PeriodicTasks.Iterate(cap, periods, s, adv(i)), IterateEvents(periods, s, adv(i));
      IterateIsTimed(cap, periods, s, adv(i), t);
      IterateIsLooping(cap, periods, s, adv(i), t, h);
      PeriodicTasks.IterateKeepsInv(cap, periods, s, adv(i));
      TimedRunKeepsInv(t, now);
      RunOnPace(t, now, h, periods[h], start);
      LoopOnPace(cap, periods, s', adv, i + 1, n - 1, TimedRun(t, now), h, start);
      RunAppend(t, now, LoopEvents(cap, periods, s', adv, i + 1, n - 1));
    }
  }

  /** In the whole program every task, created `gaps[0] + ... + gaps[h]` after the start, is resumed for
      the j-th time only by a reading later than its creation plus j periods. */
  lemma ProgramNeverEarly(cap: nat, clock: int, periods: seq<nat>, counts: seq<nat>, gaps: seq<nat>,
                          adv: nat -> PeriodicTasks.Advance, n: nat, h: nat)
    requires |periods| == |counts| == |gaps| <= cap && h < |periods| && periods[h] > 0
    ensures var log := TimedRun(Begin(cap, clock), ProgramEvents(cap, clock, periods, counts, gaps, adv, n)).sys.log;
            forall i :: 0 <= i < |log| && log[i].item.handle.task == h ==>
              log[i].current > clock + PeriodicTasks.Sum(gaps[..h + 1])
                               + Resumptions(log[..i + 1], h) * (1000 * periods[h])
  {
    hide TimedRun, Honest, Same, PeriodicTasks.Loop, PeriodicTasks.StartAll, PeriodicTasks.Inv, TimedInv, Begin, PeriodicTasks.Sum,
         CreationEvents, LoopEvents, Resumptions;
    var s, created := PeriodicTasks.StartAll(cap, clock, periods, counts, gaps), CreationEvents(cap, clock, periods, counts, gaps);
    var t0, start := Begin(cap, clock), clock + PeriodicTasks.Sum(gaps[..h + 1]);
    PeriodicTasks.StartAllInv(cap, clock, periods, counts, gaps);
    EmptyInv(cap, clock);
    CreationIsTimed(cap, clock, periods, counts, gaps);
    TimedRunKeepsInv(t0, created);
    CreationOnPace(cap, clock, periods, counts, gaps, h);
    LoopOnPace(cap, periods, s, adv, 0, n, TimedRun(t0, created), h, start);
    RunAppend(t0, created, LoopEvents(cap, periods, s, adv, 0, n));
  }

  /** The two tasks of the example, of 10 and 20 seconds. */
  lemma ExampleNeverEarly(clock: int, gaps: seq<nat>, adv: nat -> PeriodicTasks.Advance, n: nat, h: nat)
    requires |gaps| == 2 && h < 2
    ensures var evs := ProgramEvents(10, clock, [10_000_000, 20_000_000], [10, 10], gaps, adv, n);
            var log := TimedRun(Begin(10, clock), evs).sys.log;
            forall i :: 0 <= i < |log| && log[i].item.handle.task == h ==>
              log[i].current > clock + gaps[0] + (if h == 1 then gaps[1] else 0)
                               + Resumptions(log[..i + 1], h) * (if h == 1 then 20_000_000_000 else 10_000_000_000)
  {
    hide *;
    ProgramNeverEarly(10, clock, [10_000_000, 20_000_000], [10, 10], gaps, adv, n, h);
    SumOfStart(gaps, h);
  }

  lemma SumOfStart(gaps: seq<nat>, h: nat)
    requires |gaps| == 2 && h < 2
    ensures PeriodicTasks.Sum(gaps[..h + 1]) == gaps[0] + if h == 1 then gaps[1] else 0
  {
    assert gaps[..1] == [gaps[0]] && [gaps[0]][1..] == [];
    if h == 1 {
      SumLast(gaps);
      assert gaps[..2] == gaps;
    }
  }
}
