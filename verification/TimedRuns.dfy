/** Every run of a delay scheduler against a clock (include/coro/scheduler.hpp:46-87, 213-280).

    Time is in nanoseconds, delays are in microseconds.  Time may pass between any two insertions of
    a resumed task.  `resume` is called with a clock reading that may be old but is never ahead of
    the clock. */
module TimedRuns {
  import opened Sequences
  import opened WakeOrder
  import opened OrderedRuns

  const NS_PER_US := 1000

  /** `elapse` nanoseconds pass, then `task` awaits a delay. */
  datatype Await = Await(elapse: nat, task: nat, delay: nat)

  datatype Timed = Timed(clock: int, sys: State<int>)

  datatype TimedEvent =
    | Tick(elapse: nat)
    | Start(task: nat, delay: nat)                 // insertion from the main program
    | Wake(reading: int, awaits: seq<Await>)       // a `resume`, with what the resumed task would do

  function Begin(cap: nat, clock: int): Timed {
    Timed(clock, Init(cap))
  }

  /** The expiry is computed from the clock when the condition is made. */
  function PutDelay(t: Timed, task: nat, delay: nat): Timed {
    t.(sys := DoPut(DELAY, t.sys, Put(task, t.clock + NS_PER_US * delay)))
  }

  /** `co_await scheduled_delay`: a zero delay is ready at once and inserts nothing
      (include/coro/awaitable_timer.hpp:36-43). */
  function DoAwait(t: Timed, a: Await): Timed {
    var t1 := t.(clock := t.clock + a.elapse);
    if a.delay == 0 then t1 else PutDelay(t1, a.task, a.delay)
  }

  function DoAwaits(t: Timed, awaits: seq<Await>): Timed
    decreases |awaits|
  {
    if awaits == [] then t else DoAwaits(DoAwait(t, awaits[0]), awaits[1..])
  }

  function TakeAt(t: Timed, reading: int): Timed {
    t.(sys := Take(DELAY, t.sys, reading))
  }

  function TimedStep(t: Timed, ev: TimedEvent): Timed {
    match ev
    case Tick(d) => t.(clock := t.clock + d)
    case Start(task, delay) => PutDelay(t, task, delay)
    case Wake(reading, awaits) =>
      if Runs(DELAY, t.sys, reading) then DoAwaits(TakeAt(t, reading), awaits) else t
  }

  function TimedRun(t: Timed, evs: seq<TimedEvent>): Timed {
    if evs == [] then t else TimedStep(TimedRun(t, evs[..|evs| - 1]), evs[|evs| - 1])
  }

  predicate NotAhead(t: Timed, ev: TimedEvent) {
    ev.Wake? ==> ev.reading <= t.clock
  }

  /** No clock reading of the run is ahead of the clock. */
  ghost predicate Honest(t: Timed, evs: seq<TimedEvent>) {
    forall i :: 0 <= i < |evs| ==> NotAhead(TimedRun(t, evs[..i]), evs[i])
  }

  ghost predicate Increasing(log: seq<Ran<int>>) {
    forall i, j {:trigger EarlierExpiry(log[i].item, log[j].item)} ::
      0 <= i < j < |log| ==> EarlierExpiry(log[i].item, log[j].item)
  }

  /** Whatever was resumed comes before whatever still waits. */
  ghost predicate LogFirst(log: seq<Ran<int>>, ws: seq<Item<int>>) {
    forall i, j {:trigger EarlierExpiry(log[i].item, ws[j])} ::
      0 <= i < |log| && 0 <= j < |ws| ==> EarlierExpiry(log[i].item, ws[j])
  }

  ghost predicate TimedInv(t: Timed) {
    && Inv(DELAY, t.sys)
    && Increasing(t.sys.log)
    && (forall i :: 0 <= i < |t.sys.log| ==> t.sys.log[i].item.cond < t.clock)
    && LogFirst(t.sys.log, t.sys.waiting)
  }

  lemma PutBehindLog(log: seq<Ran<int>>, ws: seq<Item<int>>, k: nat, e: Item<int>)
    requires LogFirst(log, ws) && k <= |ws| && forall i :: 0 <= i < |log| ==> log[i].item.cond < e.cond
    ensures LogFirst(log, InsertAt(ws, k, e))
  {
    var ws' := InsertAt(ws, k, e);
    forall i, j | 0 <= i < |log| && 0 <= j < |ws'| ensures EarlierExpiry(log[i].item, ws'[j]) {
      if j != k {
        var j0 := if j < k then j else j - 1;
        assert ws'[j] == ws[j0] && EarlierExpiry(log[i].item, ws[j0]);
      }
    }
  }

  lemma PutDelayKeepsInv(t: Timed, task: nat, delay: nat)
    requires TimedInv(t)
    ensures TimedInv(PutDelay(t, task, delay))
  {
    hide Inv, Increasing, StampSorted, WakeRelation;
    DelayAndPriorityAreWakeRelations();
    var p := Put(task, t.clock + NS_PER_US * delay);
    DoPutKeepsInv(DELAY, t.sys, p);
    if |t.sys.waiting| < t.sys.cap {
      PutBehindLog(t.sys.log, t.sys.waiting, InsertPos(DELAY, t.sys.waiting, p.cond),
                   Entry(Stamp(task, |t.sys.accepted|), p.cond));
    }
  }

  lemma DoAwaitKeepsInv(t: Timed, a: Await)
    requires TimedInv(t)
    ensures TimedInv(DoAwait(t, a))
  {
    hide Inv, Increasing, LogFirst, DoPut;
    PutDelayKeepsInv(t.(clock := t.clock + a.elapse), a.task, a.delay);
  }

  lemma {:induction false} AwaitsKeepLog(t: Timed, awaits: seq<Await>)
    ensures DoAwaits(t, awaits).clock >= t.clock
    ensures DoAwaits(t, awaits).sys.log == t.sys.log
    decreases |awaits|
  {
    if awaits != [] {
      AwaitsKeepLog(DoAwait(t, awaits[0]), awaits[1..]);
    }
  }

  lemma {:induction false} AwaitsKeepInv(t: Timed, awaits: seq<Await>)
    requires TimedInv(t)
    ensures TimedInv(DoAwaits(t, awaits))
    decreases |awaits|
  {
    if awaits != [] {
      DoAwaitKeepsInv(t, awaits[0]);
      AwaitsKeepInv(DoAwait(t, awaits[0]), awaits[1..]);
    }
  }

  /** From a sorted list `resume` takes the head or nothing. */
  lemma TakeHead(t: Timed, reading: int)
    requires StampSorted(DELAY, t.sys.waiting)
    ensures Runs(DELAY, t.sys, reading) <==> t.sys.waiting != [] && t.sys.waiting[0].cond < reading
    ensures Runs(DELAY, t.sys, reading) ==>
              && TakeAt(t, reading).sys.waiting == t.sys.waiting[1..]
              && TakeAt(t, reading).sys.log == t.sys.log + [Ran(t.sys.waiting[0], reading)]
  {
    DelayAndPriorityAreWakeRelations();
    TakesHead(DELAY, t.sys, reading);
  }

  lemma HeadJoinsLog(log: seq<Ran<int>>, ws: seq<Item<int>>, reading: int)
    requires ws != [] && StampSorted(DELAY, ws) && Increasing(log) && LogFirst(log, ws)
    ensures Increasing(log + [Ran(ws[0], reading)]) && LogFirst(log + [Ran(ws[0], reading)], ws[1..])
  {
    var log' := log + [Ran(ws[0], reading)];
    forall i, j | 0 <= i < j < |log'| ensures EarlierExpiry(log'[i].item, log'[j].item) {
      assert j == |log| ==> EarlierExpiry(log[i].item, ws[0]);
      assert j < |log| ==> EarlierExpiry(log[i].item, log[j].item);
    }
    forall i, j | 0 <= i < |log'| && 0 <= j < |ws| - 1 ensures EarlierExpiry(log'[i].item, ws[1..][j]) {
      assert i < |log| ==> EarlierExpiry(log[i].item, ws[j + 1]);
      assert Precedes(DELAY, ws[0], ws[j + 1]);
    }
  }

  lemma TakeAtKeepsInv(t: Timed, reading: int)
    requires TimedInv(t) && reading <= t.clock && Runs(DELAY, t.sys, reading)
    ensures TimedInv(TakeAt(t, reading))
  {
    TakeHead(t, reading);
    TakeKeepsInv(DELAY, t.sys, reading);
    HeadJoinsLog(t.sys.log, t.sys.waiting, reading);
  }

  lemma TimedStepKeepsInv(t: Timed, ev: TimedEvent)
    requires TimedInv(t) && NotAhead(t, ev)
    ensures TimedInv(TimedStep(t, ev)) && TimedStep(t, ev).clock >= t.clock
  {
    match ev
    case Tick(d) =>
    case Start(task, delay) => PutDelayKeepsInv(t, task, delay);
    case Wake(reading, awaits) =>
      if Runs(DELAY, t.sys, reading) {
        TakeAtKeepsInv(t, reading);
        AwaitsKeepInv(TakeAt(t, reading), awaits);
        AwaitsKeepLog(TakeAt(t, reading), awaits);
      }
  }

  lemma HonestPrefix(t: Timed, evs: seq<TimedEvent>, n: nat)
    requires Honest(t, evs) && n <= |evs|
    ensures Honest(t, evs[..n])
    ensures n < |evs| ==> NotAhead(TimedRun(t, evs[..n]), evs[n])
  {
    forall i | 0 <= i < n ensures NotAhead(TimedRun(t, evs[..n][..i]), evs[..n][i]) {
      assert evs[..n][..i] == evs[..i];
    }
  }

  lemma {:induction false} TimedRunKeepsInv(t: Timed, evs: seq<TimedEvent>)
    requires TimedInv(t) && Honest(t, evs)
    ensures TimedInv(TimedRun(t, evs)) && TimedRun(t, evs).clock >= t.clock
  {
    if evs != [] {
      var n := |evs| - 1;
      HonestPrefix(t, evs, n);
      TimedRunKeepsInv(t, evs[..n]);
      TimedStepKeepsInv(TimedRun(t, evs[..n]), evs[n]);
    }
  }

  lemma EmptyInv(cap: nat, clock: int)
    ensures TimedInv(Begin(cap, clock))
  {
  }

  /** Strictly increasing in (expiry, insertion number), each entry resumed by a reading past its
      expiry. */
  ghost predicate InOrder(log: seq<Ran<int>>) {
    && Increasing(log)
    && LogReady(DELAY, log)
  }

  lemma InvInOrder(t: Timed)
    requires TimedInv(t)
    ensures InOrder(t.sys.log)
  {
  }

  /** Over every run whose readings are never ahead of the clock, tasks are resumed strictly in order
      of expiry and, for equal expiries, of insertion, and each only after its expiry, even though
      the resumed tasks insert new entries. */
  lemma ResumedInOrder(cap: nat, clock: int, evs: seq<TimedEvent>)
    requires Honest(Begin(cap, clock), evs)
    ensures InOrder(TimedRun(Begin(cap, clock), evs).sys.log)
  {
    hide *;
    EmptyInv(cap, clock);
    TimedRunKeepsInv(Begin(cap, clock), evs);
    InvInOrder(TimedRun(Begin(cap, clock), evs));
  }

  // ---------------------------------------------------------------- a fixed clock reading

  /** The number of entries due at a reading. */
  function Due(ws: seq<Item<int>>, reading: int): (d: nat)
    ensures d <= |ws|
    ensures forall i :: 0 <= i < d ==> ws[i].cond < reading
    ensures d < |ws| ==> ws[d].cond >= reading
  {
    if ws == [] || ws[0].cond >= reading then 0 else 1 + Due(ws[1..], reading)
  }

  /** In a sorted list these are all of them. */
  lemma DueCounts(ws: seq<Item<int>>, reading: int)
    requires StampSorted(DELAY, ws)
    ensures forall i :: 0 <= i < |ws| ==> (ws[i].cond < reading <==> i < Due(ws, reading))
  {
    forall i | Due(ws, reading) < i < |ws| ensures ws[i].cond >= reading {
      assert Precedes(DELAY, ws[Due(ws, reading)], ws[i]);
    }
  }

  function Wakes(t: Timed, reading: int, scripts: seq<seq<Await>>): Timed
    decreases |scripts|
  {
    if scripts == [] then t else Wakes(TimedStep(t, Wake(reading, scripts[0])), reading, scripts[1..])
  }

  /** Insertions after the reading do not join, delay or reorder the entries due at it. */
  lemma PutBehindDue(t: Timed, task: nat, delay: nat, reading: int)
    requires reading <= t.clock
    ensures var ws, ws' := t.sys.waiting, PutDelay(t, task, delay).sys.waiting;
            && Due(ws', reading) == Due(ws, reading)
            && ws'[..Due(ws, reading)] == ws[..Due(ws, reading)]
  {
    var ws, ws' := t.sys.waiting, PutDelay(t, task, delay).sys.waiting;
    var k, d, d' := InsertPos(DELAY, ws, t.clock + NS_PER_US * delay), Due(ws, reading), Due(ws', reading);
    if |ws| < t.sys.cap {
      assert d <= k;
      assert forall i :: 0 <= i < d ==> ws'[i] == ws[i];
      assert ws'[d].cond >= reading;
    }
  }

  lemma {:induction false} AwaitsBehindDue(t: Timed, awaits: seq<Await>, reading: int)
    requires reading <= t.clock
    ensures var ws, ws' := t.sys.waiting, DoAwaits(t, awaits).sys.waiting;
            && Due(ws', reading) == Due(ws, reading)
            && ws'[..Due(ws, reading)] == ws[..Due(ws, reading)]
    decreases |awaits|
  {
    if awaits != [] {
      var t1 := t.(clock := t.clock + awaits[0].elapse);
      PutBehindDue(t1, awaits[0].task, awaits[0].delay, reading);
      AwaitsBehindDue(DoAwait(t, awaits[0]), awaits[1..], reading);
    }
  }

  /** A wake whose reading is past the bound takes the first of the entries due at it. */
  lemma WakeDue(t: Timed, bound: int, reading: int, awaits: seq<Await>)
    requires StampSorted(DELAY, t.sys.waiting) && bound <= reading && bound <= t.clock
    ensures var ws, t' := t.sys.waiting, TimedStep(t, Wake(reading, awaits));
            var k := Due(ws, bound);
            && (k == 0 && reading == bound ==> t' == t)
            && (k > 0 ==>
                  && Items(t'.sys.log) == Items(t.sys.log) + [ws[0]]
                  && Due(t'.sys.waiting, bound) == k - 1
                  && t'.sys.waiting[..k - 1] == ws[1..][..k - 1])
  {
    TakeHead(t, reading);
    var ws := t.sys.waiting;
    if Due(ws, bound) > 0 {
      AwaitsKeepLog(TakeAt(t, reading), awaits);
      AwaitsBehindDue(TakeAt(t, reading), awaits, bound);
      assert Due(ws[1..], bound) == Due(ws, bound) - 1;
      assert Items(TakeAt(t, reading).sys.log) == Items(t.sys.log) + [ws[0]];
    }
  }

  /** At a fixed reading with k entries due, k calls of `resume` run exactly these, in order,
      whatever they insert; every further call runs nothing. */
  lemma {:induction false} DueRunFirst(t: Timed, reading: int, scripts: seq<seq<Await>>)
    requires TimedInv(t) && reading <= t.clock
    ensures var k := Due(t.sys.waiting, reading);
            var n := if |scripts| < k then |scripts| else k;
            && Items(Wakes(t, reading, scripts).sys.log) == Items(t.sys.log) + t.sys.waiting[..n]
            && Due(Wakes(t, reading, scripts).sys.waiting, reading) == k - n
    decreases |scripts|
  {
    if scripts == [] {
      assert t.sys.waiting[..0] == [];
    } else {
      var ws, t' := t.sys.waiting, TimedStep(t, Wake(reading, scripts[0]));
      TimedStepKeepsInv(t, Wake(reading, scripts[0]));
      WakeDue(t, reading, reading, scripts[0]);
      DueRunFirst(t', reading, scripts[1..]);
      var k := Due(ws, reading);
      var n := if |scripts| < k then |scripts| else k;
      if k > 0 {
        HandOver(Items(t.sys.log), ws, t'.sys.waiting, k, n);
      }
    }
  }

  // ---------------------------------------------------------------- a loop that sleeps

  predicate IsWake(ev: TimedEvent) {
    ev.Wake?
  }

  /** No reading of the run is older than the bound. */
  ghost predicate Since(bound: int, evs: seq<TimedEvent>) {
    forall i :: 0 <= i < |evs| && evs[i].Wake? ==> evs[i].reading >= bound
  }

  /** m of the entries ws due at the bound have been handed over, the others are next. */
  ghost predicate HandedOver(t: Timed, t': Timed, bound: int, m: nat) {
    var ws, ws' := t.sys.waiting, t'.sys.waiting;
    var k := Due(ws, bound);
    && m <= k
    && Items(t'.sys.log) == Items(t.sys.log) + ws[..m]
    && Due(ws', bound) == k - m
    && ws'[..k - m] == ws[m..k]
  }

  lemma NextHandedOver(done: seq<Item<int>>, ws: seq<Item<int>>, ws1: seq<Item<int>>, ws2: seq<Item<int>>, k: nat, m: nat)
    requires m < k <= |ws| && k - m <= |ws1| && ws1[..k - m] == ws[m..k]
    requires k - m - 1 <= |ws2| && ws2[..k - m - 1] == ws1[1..][..k - m - 1]
    ensures done + ws[..m] + [ws1[0]] == done + ws[..m + 1] && ws2[..k - m - 1] == ws[m + 1..k]
  {
    assert ws1[0] == ws1[..k - m][0] == ws[m];
    assert ws1[1..][..k - m - 1] == ws1[..k - m][1..] == ws[m..k][1..];
  }

  lemma StepHandsOver(t: Timed, t1: Timed, ev: TimedEvent, bound: int, m: nat)
    requires TimedInv(t1) && bound <= t1.clock && HandedOver(t, t1, bound, m)
    requires ev.Wake? ==> ev.reading >= bound && m < Due(t.sys.waiting, bound)
    ensures HandedOver(t, TimedStep(t1, ev), bound, if ev.Wake? then m + 1 else m)
  {
    hide TakeAt, DoAwaits, Runs, Due;
    var t2, ws, k := TimedStep(t1, ev), t.sys.waiting, Due(t.sys.waiting, bound);
    match ev
    case Tick(_) =>
    case Start(task, delay) => PutBehindDue(t1, task, delay, bound);
    case Wake(reading, awaits) =>
      WakeDue(t1, bound, reading, awaits);
      NextHandedOver(Items(t.sys.log), ws, t1.sys.waiting, t2.sys.waiting, k, m);
  }

  /** With k entries due at the bound, each of the next k calls of `resume` with readings past it runs
      one of them, in order, however much time passes and whatever is inserted in between. */
  lemma {:induction false} DueRunNext(t: Timed, evs: seq<TimedEvent>, bound: int)
    requires TimedInv(t) && Honest(t, evs) && bound <= t.clock && Since(bound, evs)
    requires Count(evs, IsWake) <= Due(t.sys.waiting, bound)
    ensures HandedOver(t, TimedRun(t, evs), bound, Count(evs, IsWake))
    decreases |evs|
  {
    hide TimedInv, TimedStep, Honest, Due;
    if evs == [] {
      assert t.sys.waiting[..0] == [];
    } else {
      var n := |evs| - 1;
      HonestPrefix(t, evs, n);
      TimedRunKeepsInv(t, evs[..n]);
      assert Since(bound, evs[..n]);
      DueRunNext(t, evs[..n], bound);
      StepHandsOver(t, TimedRun(t, evs[..n]), evs[n], bound, Count(evs[..n], IsWake));
    }
  }

  /** A loop that sleeps past the reported expiry then runs, call by call, every task that was waiting,
      in order: none of these calls comes back empty. */
  lemma SleptPastReport(t: Timed, evs: seq<TimedEvent>)
    requires TimedInv(t) && Honest(t, evs) && t.sys.waiting != []
    requires Report(DELAY, t.sys.waiting).Some? && Report(DELAY, t.sys.waiting).value < t.clock
    requires Since(Report(DELAY, t.sys.waiting).value + 1, evs) && Count(evs, IsWake) <= |t.sys.waiting|
    ensures Items(TimedRun(t, evs).sys.log) == Items(t.sys.log) + t.sys.waiting[..Count(evs, IsWake)]
  {
    var ws, bound := t.sys.waiting, Report(DELAY, t.sys.waiting).value + 1;
    DelayAndPriorityAreWakeRelations();
    StampSortedIsSorted(DELAY, ws);
    PastReportAllDue(ws, bound);
    DueCounts(ws, bound);
    assert DELAY(ws[|ws| - 1].cond, bound);
    DueRunNext(t, evs, bound);
  }

  // ---------------------------------------------------------------- a timed run is a run

  /** The time that passes during some awaits. */
  function Elapsed(awaits: seq<Await>): nat {
    if awaits == [] then 0 else awaits[0].elapse + Elapsed(awaits[1..])
  }

  predicate Suspends(a: Await) {
    a.delay > 0
  }

  /** The insertions that awaits from a given time make. */
  function PutsOf(clock: int, awaits: seq<Await>): seq<Put<int>>
    decreases |awaits|
  {
    if awaits == [] then [] else
      var now := clock + awaits[0].elapse;
      (if awaits[0].delay > 0 then [Put(awaits[0].task, now + NS_PER_US * awaits[0].delay)] else []) + PutsOf(now, awaits[1..])
  }

  /** There is one for each await with a positive delay... */
  lemma {:induction false} PutsCount(clock: int, awaits: seq<Await>)
    ensures |PutsOf(clock, awaits)| == Count(awaits, Suspends)
    decreases |awaits|
  {
    if awaits != [] {
      PutsCount(clock + awaits[0].elapse, awaits[1..]);
      CountFirst(awaits[0], awaits[1..], Suspends);
      assert [awaits[0]] + awaits[1..] == awaits;
    }
  }

  /** ... for its task, expiring its delay, in microseconds, after the time at which it is reached. */
  lemma {:induction false} PutsAt(clock: int, awaits: seq<Await>, i: nat)
    requires i < |awaits| && awaits[i].delay > 0
    ensures var puts, k := PutsOf(clock, awaits), Count(awaits[..i], Suspends);
            && k < |puts|
            && puts[k] == Put(awaits[i].task, clock + Elapsed(awaits[..i + 1]) + 1000 * awaits[i].delay)
    decreases |awaits|
  {
    var a, rest := awaits[0], awaits[1..];
    assert awaits[..i + 1][1..] == rest[..i];
    if i == 0 {
      assert awaits[..0] == [] && rest[..0] == [];
    } else {
      PutsAt(clock + a.elapse, rest, i - 1);
      assert awaits[..i] == [a] + rest[..i - 1];
      CountFirst(a, rest[..i - 1], Suspends);
    }
  }

  lemma {:induction false} AwaitsArePuts(t: Timed, awaits: seq<Await>)
    ensures DoAwaits(t, awaits) == Timed(t.clock + Elapsed(awaits), DoPuts(DELAY, t.sys, PutsOf(t.clock, awaits)))
    decreases |awaits|
  {
    hide DoPut;
    if awaits != [] {
      var a, rest := awaits[0], awaits[1..];
      var t1 := DoAwait(t, a);
      AwaitsArePuts(t1, rest);
      if a.delay > 0 {
        var p := Put(a.task, t1.clock + NS_PER_US * a.delay);
        assert PutsOf(t.clock, awaits) == [p] + PutsOf(t1.clock, rest);
        assert ([p] + PutsOf(t1.clock, rest))[1..] == PutsOf(t1.clock, rest);
      } else {
        assert PutsOf(t.clock, awaits) == PutsOf(t1.clock, rest);
      }
    }
  }

  /** What a timed event is without the clock. */
  function Untimed(t: Timed, ev: TimedEvent): seq<Event<int>> {
    match ev
    case Tick(_) => []
    case Start(task, delay) => [Main(Put(task, t.clock + NS_PER_US * delay))]
    case Wake(reading, awaits) => [Resume(reading, PutsOf(t.clock, awaits))]
  }

  function UntimedRun(t: Timed, evs: seq<TimedEvent>): seq<Event<int>> {
    if evs == [] then [] else UntimedRun(t, evs[..|evs| - 1]) + Untimed(TimedRun(t, evs[..|evs| - 1]), evs[|evs| - 1])
  }

  lemma RunEvent(s: State<int>, evs: seq<Event<int>>, ev: Event<int>)
    ensures Run(DELAY, s, evs + [ev]) == Step(DELAY, Run(DELAY, s, evs), ev)
    ensures Offers(DELAY, s, evs + [ev]) == Offers(DELAY, s, evs) + OfferOf(DELAY, Run(DELAY, s, evs), ev)
  {
    assert (evs + [ev])[..|evs|] == evs;
  }

  /** The time that an event takes, and the insertions it asks for. */
  function Lapse(t: Timed, ev: TimedEvent): nat {
    match ev
    case Tick(d) => d
    case Start(_, _) => 0
    case Wake(reading, awaits) => if Runs(DELAY, t.sys, reading) then Elapsed(awaits) else 0
  }

  function Asked(t: Timed, ev: TimedEvent): nat {
    match ev
    case Tick(_) => 0
    case Start(_, _) => 1
    case Wake(reading, awaits) => if Runs(DELAY, t.sys, reading) then Count(awaits, Suspends) else 0
  }

  function Lapses(t: Timed, evs: seq<TimedEvent>): nat {
    if evs == [] then 0 else Lapses(t, evs[..|evs| - 1]) + Lapse(TimedRun(t, evs[..|evs| - 1]), evs[|evs| - 1])
  }

  function AllAsked(t: Timed, evs: seq<TimedEvent>): nat {
    if evs == [] then 0 else AllAsked(t, evs[..|evs| - 1]) + Asked(TimedRun(t, evs[..|evs| - 1]), evs[|evs| - 1])
  }

  lemma StepIsRun(t0: State<int>, evs: seq<Event<int>>, t: Timed, ev: TimedEvent)
    requires t.sys == Run(DELAY, t0, evs)
    ensures var t' := TimedStep(t, ev);
            && t'.sys == Run(DELAY, t0, evs + Untimed(t, ev))
            && t'.clock == t.clock + Lapse(t, ev)
            && |Offers(DELAY, t0, evs + Untimed(t, ev))| == |Offers(DELAY, t0, evs)| + Asked(t, ev)
  {
    hide Run, Offers, DoPut, DoPuts, PutsOf, Elapsed, Take, Runs, Count;
    match ev
    case Tick(_) => assert evs + [] == evs;
    case Start(task, delay) => RunEvent(t0, evs, Main(Put(task, t.clock + NS_PER_US * delay)));
    case Wake(reading, awaits) =>
      RunEvent(t0, evs, Resume(reading, PutsOf(t.clock, awaits)));
      AwaitsArePuts(TakeAt(t, reading), awaits);
      PutsCount(t.clock, awaits);
  }

  /** A timed run is the run of the scheduler with the insertions its events ask for, and its clock is
      advanced by their time. */
  lemma {:induction false} TimedIsRun(t: Timed, evs: seq<TimedEvent>)
    ensures TimedRun(t, evs).sys == Run(DELAY, t.sys, UntimedRun(t, evs))
    ensures TimedRun(t, evs).clock == t.clock + Lapses(t, evs)
    ensures |Offers(DELAY, t.sys, UntimedRun(t, evs))| == AllAsked(t, evs)
  {
    if evs != [] {
      hide TimedStep, Untimed, Asked, Lapse, Run, Offers;
      var n := |evs| - 1;
      TimedIsRun(t, evs[..n]);
      StepIsRun(t.sys, UntimedRun(t, evs[..n]), TimedRun(t, evs[..n]), evs[n]);
    }
  }

  /** So each insertion of the main program and each await with a positive delay of a resumed task is
      accepted or refused, and nothing else is. */
  lemma TimedOffersBooked(cap: nat, clock: int, evs: seq<TimedEvent>)
    ensures var s := TimedRun(Begin(cap, clock), evs).sys;
            |s.accepted| + s.refused == AllAsked(Begin(cap, clock), evs)
  {
    TimedIsRun(Begin(cap, clock), evs);
    RunBooked(DELAY, cap, UntimedRun(Begin(cap, clock), evs));
  }
}
