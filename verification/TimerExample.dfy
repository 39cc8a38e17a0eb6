/** The tasks and the loop of src/example_timer.cpp with the class `scheduler_ordered`, ending as in
    test/test_timer_coro.cpp:118-125 when every task is done. */
module TimerExample {
  import opened Sequences
  import opened WakeOrder
  import opened OrderedSchedulers
  import opened TimedRuns
  import opened PeriodicTasks

  /** Create a task; it runs up to its first await.  The awaits of a zero period are ready at once, so
      such a task counts all of them and finishes. */
  method Create(scheduler: OrderedScheduler<int>, ghost s: Sys, clock: int, left: seq<nat>, period: nat, count: nat)
      returns (left': seq<nat>, resumeCount: nat)
    requires scheduler.Valid() && scheduler.ready == DELAY
    requires s.clock == clock && s.waiting == scheduler.Contents() && s.left == left
    modifies scheduler.waiting.Repr()
    ensures scheduler.Valid()
    ensures StartTask(scheduler.waiting.capacity, s, period, count)
         == s.(waiting := scheduler.Contents(), left := left')
    ensures |left'| == |left| + 1 && left' == left + [left'[|left|]] && resumeCount + left'[|left|] == count
  {
    hide StaticLists.Pool, StaticLists.At, WakeRelation, Sorted, Insert;
    resumeCount := 0;
    if period == 0 || count == 0 {
      for i := 0 to count
        invariant resumeCount == i
      {
        resumeCount := i + 1;
      }
      left' := left + [0];
    } else {
      scheduler.Insert(|left|, clock + NS_PER_US * period);
      left' := left + [count];
    }
  }

  predicate HeadSuspended(s: Sys) {
    s.waiting != [] ==> Suspended(s, s.waiting[0].handle)
  }

  function Decrement(left: seq<nat>, h: nat): seq<nat>
    requires h < |left| && left[h] > 0
  {
    left[h := left[h] - 1]
  }

  /** The state after an iteration that left the list at `ws`. */
  function After(s: Sys, a: Advance, ws: seq<Entry<nat, int>>, resumed: Option<nat>): Sys
    requires resumed.Some? ==> Suspended(s, resumed.value)
  {
    var clock := s.clock + a.before + a.after;
    if resumed.Some? then Sys(clock, ws, Decrement(s.left, resumed.value), s.ran + [resumed.value])
    else Sys(clock, ws, s.left, s.ran)
  }

  lemma ResumeIsIterate(
      cap: nat, periods: seq<nat>, s: Sys, a: Advance, ws: seq<Entry<nat, int>>, resumed: Option<nat>)
    requires |s.left| == |periods| && HeadSuspended(s) && Sorted(DELAY, s.waiting)
    requires s.waiting != [] && DELAY(s.waiting[0].cond, s.clock) ==>
               && resumed == Some(s.waiting[0].handle)
               && ws == InsertAll(DELAY, cap, s.waiting[1..], NextAwait(periods, s.left, s.clock + a.before, s.waiting[0].handle))
    requires s.waiting == [] || !DELAY(s.waiting[0].cond, s.clock) ==> resumed == None && ws == s.waiting
    ensures resumed.Some? ==> Suspended(s, resumed.value)
    ensures Iterate(cap, periods, s, a) == After(s, a, ws, resumed)
  {
    if resumed.Some? {
      IterateRuns(cap, periods, s, a);
    } else {
      IterateIdles(cap, periods, s, a);
    }
  }

  /** The counters account for all the awaits. */
  ghost predicate Counted(resumeCount: seq<nat>, left: seq<nat>, awaits: seq<nat>) {
    && |resumeCount| == |left| == |awaits|
    && forall h :: 0 <= h < |left| ==> resumeCount[h] + left[h] == awaits[h]
  }

  /** `resume_count = i + 1` */
  method ComeBack(left: seq<nat>, resumeCount: seq<nat>, h: nat, ghost awaits: seq<nat>)
      returns (left': seq<nat>, resumeCount': seq<nat>)
    requires Counted(resumeCount, left, awaits) && h < |left| && left[h] > 0
    ensures left' == Decrement(left, h) && Counted(resumeCount', left', awaits)
  {
    left', resumeCount' := Decrement(left, h), resumeCount[h := resumeCount[h] + 1];
  }

  /** One call of `resume` in the loop, and the coroutine it resumes. */
  method ResumeOnce(scheduler: OrderedScheduler<int>, ghost s: Sys, periods: seq<nat>, left: seq<nat>, clock: int, a: Advance)
      returns (resumed: Option<nat>)
    requires scheduler.Valid() && scheduler.ready == DELAY && HeadSuspended(s)
    requires s.clock == clock && s.waiting == scheduler.Contents() && s.left == left && |left| == |periods|
    modifies scheduler.waiting.Repr()
    ensures scheduler.Valid()
    ensures resumed.Some? ==> Suspended(s, resumed.value)
    ensures Iterate(scheduler.waiting.capacity, periods, s, a)
         == After(s, a, scheduler.Contents(), resumed)
  {
    hide InsertAll, Iterate, WakeRelation;
    assert Sorted(DELAY, s.waiting);
    var now := clock + a.before;
    var pending, next;
    pending, next, resumed := scheduler.Resume(clock, (h: nat) => NextAwait(periods, left, now, h));
    ResumeIsIterate(scheduler.waiting.capacity, periods, s, a, scheduler.Contents(), resumed);
  }

  /** One iteration of the loop. */
  method Iteration(scheduler: OrderedScheduler<int>, ghost s: Sys, periods: seq<nat>, clock: int, left: seq<nat>,
                   resumeCount: seq<nat>, a: Advance, ghost awaits: seq<nat>)
      returns (clock': int, left': seq<nat>, resumeCount': seq<nat>, ghost s': Sys)
    requires scheduler.Valid() && scheduler.ready == DELAY && HeadSuspended(s)
    requires s.clock == clock && s.waiting == scheduler.Contents() && s.left == left && |left| == |periods|
    requires Counted(resumeCount, left, awaits)
    modifies scheduler.waiting.Repr()
    ensures scheduler.Valid()
    ensures s' == Iterate(scheduler.waiting.capacity, periods, s, a)
    ensures s'.clock == clock' && s'.waiting == scheduler.Contents() && s'.left == left'
    ensures Counted(resumeCount', left', awaits)
  {
    var resumed := ResumeOnce(scheduler, s, periods, left, clock, a);
    clock', left', resumeCount' := clock + a.before + a.after, left, resumeCount;
    if resumed.Some? {
      left', resumeCount' := ComeBack(left, resumeCount, resumed.value, awaits);
    }
    s' := Iterate(scheduler.waiting.capacity, periods, s, a);
  }

  /** Create the tasks in order, some time passing before each. */
  method CreateAll(scheduler: OrderedScheduler<int>, start: int, periods: seq<nat>, counts: seq<nat>, gaps: seq<nat>)
      returns (clock: int, left: seq<nat>, resumeCount: seq<nat>)
    requires scheduler.Valid() && scheduler.ready == DELAY && scheduler.Contents() == []
    requires |periods| == |counts| == |gaps|
    modifies scheduler.waiting.Repr()
    ensures scheduler.Valid()
    ensures Sys(clock, scheduler.Contents(), left, [])
         == StartAll(scheduler.waiting.capacity, start, periods, counts, gaps)
    ensures Counted(resumeCount, left, counts)
  {
    hide StaticLists.Pool, StaticLists.At, WakeRelation, Sorted, Insert;
    clock, left, resumeCount := start, [], [];
    for k := 0 to |periods|
      invariant scheduler.Valid()
      invariant Sys(clock, scheduler.Contents(), left, [])
             == StartAll(scheduler.waiting.capacity, start, periods[..k], counts[..k], gaps[..k])
      invariant Counted(resumeCount, left, counts[..k])
    {
      clock := clock + gaps[k];
      StartOneMore(scheduler.waiting.capacity, start, periods, counts, gaps, k);
      var done;
      left, done := Create(scheduler, Sys(clock, scheduler.Contents(), left, []), clock, left, periods[k], counts[k]);
      resumeCount := resumeCount + [done];
      CountOneMore(resumeCount, left, counts, k);
    }
    assert periods[..|periods|] == periods && counts[..|periods|] == counts && gaps[..|periods|] == gaps;
  }

  /** The loop.  It ends for every way the clock may advance; then each counter has grown by exactly the
      awaits its task had left. */
  method RunAll(scheduler: OrderedScheduler<int>, periods: seq<nat>, start: int, left0: seq<nat>, resumeCount0: seq<nat>,
                ghost counts: seq<nat>, adv: nat -> Advance)
      returns (resumeCount: seq<nat>)
    requires scheduler.Valid() && scheduler.ready == DELAY && |periods| <= scheduler.waiting.capacity
    requires PeriodicTasks.Inv(periods, Sys(start, scheduler.Contents(), left0, [])) && Advances(adv)
    requires Counted(resumeCount0, left0, counts)
    modifies scheduler.waiting.Repr()
    ensures scheduler.Valid() && scheduler.Contents() == []
    ensures resumeCount == counts
  {
    var clock, left := start, left0;
    resumeCount := resumeCount0;
    ghost var s := Sys(start, scheduler.Contents(), left0, []);
    var i := 0;
    while i == 0 || !AllDone(left)
      invariant scheduler.Valid() && PeriodicTasks.Inv(periods, s)
      invariant s.clock == clock && s.waiting == scheduler.Contents() && s.left == left
      invariant Counted(resumeCount, left, counts)
      decreases Sum(s.left), if i == 0 then 1 else 0, Patience(s)
    {
      NextIteration(scheduler.waiting.capacity, periods, s, adv(i), left);
      clock, left, resumeCount, s := Iteration(scheduler, s, periods, clock, left, resumeCount, adv(i), counts);
      i := i + 1;
    }
    AllDoneIff(left);
    WaitingEmptyIff(periods, s);
  }

  lemma NextIteration(cap: nat, periods: seq<nat>, s: Sys, a: Advance, left: seq<nat>)
    requires PeriodicTasks.Inv(periods, s) && s.left == left && |periods| <= cap && a.Positive()
    ensures HeadSuspended(s)
    ensures var s' := Iterate(cap, periods, s, a);
            && PeriodicTasks.Inv(periods, s')
            && Sum(s'.left) <= Sum(s.left)
            && (Sum(s'.left) == Sum(s.left) && !AllDone(left) ==> Patience(s') < Patience(s))
  {
    IterateKeepsInv(cap, periods, s, a);
    IterateProgress(cap, periods, s, a);
    if s.waiting != [] {
      WaitingIsSuspended(periods, s, 0);
    }
    WaitingEmptyIff(periods, s);
    AllDoneIff(left);
  }

  /** The whole program: every task's counter ends at exactly its count, whatever its period. */
  method ExampleTimer(maxTasks: nat, start: int, periods: seq<nat>, counts: seq<nat>, gaps: seq<nat>, adv: nat -> Advance)
      returns (resumeCount: seq<nat>)
    requires |periods| == |counts| == |gaps| <= maxTasks && 1 <= maxTasks && Advances(adv)
    ensures resumeCount == counts
  {
    DelayAndPriorityAreWakeRelations();
    var scheduler := new OrderedScheduler(DELAY, maxTasks);
    var clock, left;
    clock, left, resumeCount := CreateAll(scheduler, start, periods, counts, gaps);
    StartAllInv(maxTasks, start, periods, counts, gaps);
    resumeCount := RunAll(scheduler, periods, clock, left, resumeCount, counts, adv);
  }

  lemma StartOneMore(cap: nat, clock: int, periods: seq<nat>, counts: seq<nat>, gaps: seq<nat>, k: nat)
    requires k < |periods| == |counts| == |gaps|
    ensures var s := StartAll(cap, clock, periods[..k], counts[..k], gaps[..k]);
            StartAll(cap, clock, periods[..k + 1], counts[..k + 1], gaps[..k + 1])
            == StartTask(cap, s.(clock := s.clock + gaps[k]), periods[k], counts[k])
  {
    assert periods[..k + 1][..k] == periods[..k] && counts[..k + 1][..k] == counts[..k] && gaps[..k + 1][..k] == gaps[..k];
  }

  lemma CountOneMore(resumeCount: seq<nat>, left: seq<nat>, counts: seq<nat>, k: nat)
    requires k < |counts| && |resumeCount| == |left| == k + 1
    requires Counted(resumeCount[..k], left[..k], counts[..k]) && resumeCount[k] + left[k] == counts[k]
    ensures Counted(resumeCount, left, counts[..k + 1])
  {
    forall h | 0 <= h <= k ensures resumeCount[h] + left[h] == counts[..k + 1][h] {
      assert h < k ==> resumeCount[..k][h] + left[..k][h] == counts[..k][h];
    }
  }

  /** `task1.done() && task2.done() && ...` */
  predicate AllDone(left: seq<nat>) {
    forall h :: 0 <= h < |left| ==> left[h] == 0
  }

  lemma AllDoneIff(left: seq<nat>)
    ensures AllDone(left) <==> Sum(left) == 0
  {
    SumZero(left);
  }
}
