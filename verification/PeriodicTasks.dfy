/** Periodic tasks on one delay scheduler (src/example_timer.cpp:26-34), driven by the loop that calls
    `resume` until all of them are done (test/test_timer_coro.cpp:95-130). */
module PeriodicTasks {
  import opened Sequences
  import opened WakeOrder
  import opened TimedRuns

  /** `left` holds, for each task, the awaits it still has to return from; `ran` the handles
      resumed so far. */
  datatype Sys = Sys(clock: int, waiting: seq<Entry<nat, int>>, left: seq<nat>, ran: seq<nat>)

  function Sum(ns: seq<nat>): nat {
    if ns == [] then 0 else ns[0] + Sum(ns[1..])
  }

  function CountOf(hs: seq<nat>, h: nat): nat {
    Count(hs, Is(h))
  }

  function Is(h: nat): nat -> bool { (x: nat) => x == h }

  function Handles(ws: seq<Entry<nat, int>>): seq<nat> {
    seq(|ws|, i requires 0 <= i < |ws| => ws[i].handle)
  }

  predicate Suspended(s: Sys, h: nat) {
    h < |s.left| && s.left[h] > 0
  }

  ghost predicate TaskWaits(periods: seq<nat>, s: Sys, h: nat)
    requires |s.left| == |periods|
  {
    && (h in Handles(s.waiting) <==> Suspended(s, h))
    && (Suspended(s, h) ==> periods[h] > 0)
  }

  /** The waiting list is sorted and holds exactly the unfinished tasks, each once. */
  ghost predicate Inv(periods: seq<nat>, s: Sys) {
    && |s.left| == |periods|
    && Sorted(DELAY, s.waiting)
    && Distinct(Handles(s.waiting))
    && forall h: nat :: TaskWaits(periods, s, h)
  }

  /** A task runs up to its first await when it is created.  A zero period never suspends, so such a
      task finishes at once. */
  function StartTask(cap: nat, s: Sys, period: nat, count: nat): Sys {
    if period == 0 || count == 0 then s.(left := s.left + [0])
    else s.(waiting := Insert(DELAY, cap, s.waiting, Entry(|s.left|, s.clock + NS_PER_US * period)),
            left := s.left + [count])
  }

  /** Task h returns from its await, and awaits its next period if it has one. */
  function ResumeTask(cap: nat, periods: seq<nat>, s: Sys, h: nat): Sys
    requires h < |s.left| == |periods| && s.left[h] > 0
  {
    var s' := s.(left := s.left[h := s.left[h] - 1], ran := s.ran + [h]);
    if s'.left[h] == 0 then s'
    else s'.(waiting := Insert(DELAY, cap, s.waiting, Entry(h, s.clock + NS_PER_US * periods[h])))
  }

  /** How much time passes in one iteration: between reading the clock and the next await of the
      resumed task, and after that (sleeping included).  The clock advances in every iteration. */
  datatype Advance = Advance(before: nat, after: nat) {
    predicate Positive() { before + after > 0 }
  }

  ghost predicate Advances(adv: nat -> Advance) {
    forall k :: adv(k).Positive()
  }

  /** One iteration: read the clock, call `resume` with the reading.  Every waiting handle is a
      suspended task's, see `WaitingIsSuspended`. */
  function Iterate(cap: nat, periods: seq<nat>, s: Sys, a: Advance): (s': Sys)
    requires |s.left| == |periods|
    ensures |s'.left| == |periods|
  {
    var s1 := s.(clock := s.clock + a.before);
    var p := FirstReady(DELAY, s.waiting, s.clock);
    var s2 := if p < |s.waiting| && Suspended(s, s.waiting[p].handle)
              then ResumeTask(cap, periods, s1.(waiting := RemoveAt(s.waiting, p)), s.waiting[p].handle)
              else s1;
    s2.(clock := s2.clock + a.after)
  }

  lemma WaitingIsSuspended(periods: seq<nat>, s: Sys, p: nat)
    requires Inv(periods, s) && p < |s.waiting|
    ensures Suspended(s, s.waiting[p].handle)
  {
    assert Handles(s.waiting)[p] in Handles(s.waiting);
    assert TaskWaits(periods, s, s.waiting[p].handle);
  }

  /** There is room for an unfinished task that is not waiting. */
  lemma Room(hs: seq<nat>, n: nat, h: nat)
    requires Distinct(hs) && h < n && h !in hs && forall x :: x in hs ==> x < n
    ensures |hs| < n
  {
    var xs: seq<int> := hs;
    assert Distinct(xs) by { forall i, j | 0 <= i < j < |xs| ensures Differ(xs, i, j) { assert Differ(hs, i, j); } }
    DistinctCard(xs);
    CardMonotone((set x | x in xs), Below(n) - {h});
  }

  lemma InsertHandles(cap: nat, ws: seq<Entry<nat, int>>, e: Entry<nat, int>)
    requires Sorted(DELAY, ws) && Distinct(Handles(ws)) && e.handle !in Handles(ws) && |ws| < cap
    ensures var ws' := Insert(DELAY, cap, ws, e);
            && Sorted(DELAY, ws') && Distinct(Handles(ws'))
            && forall h :: h in Handles(ws') <==> h in Handles(ws) || h == e.handle
  {
    var p := InsertPos(DELAY, ws, e.cond);
    DelayAndPriorityAreWakeRelations();
    InsertKeepsSorted(DELAY, cap, ws, e);
    DistinctInsert(Handles(ws), p, e.handle);
    assert Handles(InsertAt(ws, p, e)) == InsertAt(Handles(ws), p, e.handle);
  }

  lemma RemoveHandles(ws: seq<Entry<nat, int>>, p: nat)
    requires Sorted(DELAY, ws) && Distinct(Handles(ws)) && p < |ws|
    ensures var ws' := RemoveAt(ws, p);
            && Sorted(DELAY, ws') && Distinct(Handles(ws'))
            && forall h :: h in Handles(ws') <==> h in Handles(ws) && h != ws[p].handle
  {
    var ws' := RemoveAt(ws, p);
    DistinctRemove(Handles(ws), p);
    assert Handles(ws') == RemoveAt(Handles(ws), p);
    forall i, j | 0 <= i < j < |ws'| ensures Before(DELAY, ws'[i].cond, ws'[j].cond) {
      assert Before(DELAY, ws[if i < p then i else i + 1].cond, ws[if j < p then j else j + 1].cond);
    }
  }

  lemma BelowLength(periods: seq<nat>, s: Sys, hs: seq<nat>)
    requires Inv(periods, s) && forall h :: h in hs ==> h in Handles(s.waiting)
    ensures forall h :: h in hs ==> h < |periods|
  {
    forall h | h in hs ensures h < |periods| {
      assert TaskWaits(periods, s, h);
    }
  }

  lemma StartKeepsInv(cap: nat, periods: seq<nat>, s: Sys, period: nat, count: nat)
    requires Inv(periods, s) && |periods| < cap
    ensures Inv(periods + [period], StartTask(cap, s, period, count))
  {
    var h, s' := |s.left|, StartTask(cap, s, period, count);
    assert TaskWaits(periods, s, h);
    if period > 0 && count > 0 {
      BelowLength(periods, s, Handles(s.waiting));
      Room(Handles(s.waiting), h + 1, h);
      InsertHandles(cap, s.waiting, Entry(h, s.clock + NS_PER_US * period));
    }
    forall k: nat ensures TaskWaits(periods + [period], s', k) {
      assert TaskWaits(periods, s, k);
    }
  }

  lemma ResumeKeepsInv(cap: nat, periods: seq<nat>, s: Sys, p: nat, clock: int)
    requires Inv(periods, s) && p < |s.waiting| && |periods| <= cap
    ensures Suspended(s, s.waiting[p].handle)
    ensures Inv(periods, ResumeTask(cap, periods, s.(clock := clock, waiting := RemoveAt(s.waiting, p)), s.waiting[p].handle))
  {
    WaitingIsSuspended(periods, s, p);
    var h := s.waiting[p].handle;
    var ws := RemoveAt(s.waiting, p);
    var s' := ResumeTask(cap, periods, s.(clock := clock, waiting := ws), h);
    RemoveHandles(s.waiting, p);
    if s.left[h] > 1 {
      BelowLength(periods, s, Handles(ws));
      Room(Handles(ws), |periods|, h);
      InsertHandles(cap, ws, Entry(h, clock + NS_PER_US * periods[h]));
    }
    forall k: nat ensures TaskWaits(periods, s', k) {
      assert TaskWaits(periods, s, k);
    }
  }

  lemma IterateKeepsInv(cap: nat, periods: seq<nat>, s: Sys, a: Advance)
    requires Inv(periods, s) && |periods| <= cap
    ensures Inv(periods, Iterate(cap, periods, s, a))
  {
    hide TaskWaits, Sorted, Distinct, Handles, FirstReady, RemoveAt, Insert;
    var p, s' := FirstReady(DELAY, s.waiting, s.clock), Iterate(cap, periods, s, a);
    if p < |s.waiting| {
      ResumeKeepsInv(cap, periods, s, p, s.clock + a.before);
      TimeKeepsInv(periods, s'.(clock := s.clock + a.before), s'.clock);
    } else {
      TimeKeepsInv(periods, s, s'.clock);
    }
  }

  lemma TimeKeepsInv(periods: seq<nat>, s: Sys, clock: int)
    requires Inv(periods, s)
    ensures Inv(periods, s.(clock := clock))
  {
    forall h: nat ensures TaskWaits(periods, s.(clock := clock), h) {
      assert TaskWaits(periods, s, h);
    }
  }

  /** What a coroutine inserts when it returns from an await at time `now`. */
  function NextAwait(periods: seq<nat>, left: seq<nat>, now: int, h: nat): seq<Entry<nat, int>> {
    if h < |left| == |periods| && left[h] > 1 then [Entry(h, now + NS_PER_US * periods[h])] else []
  }

  lemma NextAwaitInserts(cap: nat, periods: seq<nat>, s: Sys, ws: seq<Entry<nat, int>>, h: nat)
    requires |s.left| == |periods| && Suspended(s, h)
    ensures ResumeTask(cap, periods, s.(waiting := ws), h)
         == Sys(s.clock, InsertAll(DELAY, cap, ws, NextAwait(periods, s.left, s.clock, h)),
                s.left[h := s.left[h] - 1], s.ran + [h])
  {
    var e := Entry(h, s.clock + NS_PER_US * periods[h]);
    assert InsertAll(DELAY, cap, ws, [e]) == InsertAll(DELAY, cap, Insert(DELAY, cap, ws, e), []);
  }

  /** An iteration in terms of what `resume` promises: with the head ready... */
  lemma IterateRuns(cap: nat, periods: seq<nat>, s: Sys, a: Advance)
    requires |s.left| == |periods| && s.waiting != []
    requires s.waiting[0].cond < s.clock && Suspended(s, s.waiting[0].handle)
    ensures var h, now := s.waiting[0].handle, s.clock + a.before;
            Iterate(cap, periods, s, a)
            == Sys(now + a.after, InsertAll(DELAY, cap, s.waiting[1..], NextAwait(periods, s.left, now, h)),
                   s.left[h := s.left[h] - 1], s.ran + [h])
  {
    hide InsertAll, Insert, Sum;
    var h, s1, ws := s.waiting[0].handle, s.(clock := s.clock + a.before), RemoveAt(s.waiting, 0);
    var s2 := ResumeTask(cap, periods, s1.(waiting := ws), h);
    assert Iterate(cap, periods, s, a) == s2.(clock := s2.clock + a.after);
    assert ws == s.waiting[1..];
    NextAwaitInserts(cap, periods, s1, ws, h);
  }

  /** ... and without. */
  lemma IterateIdles(cap: nat, periods: seq<nat>, s: Sys, a: Advance)
    requires |s.left| == |periods| && Sorted(DELAY, s.waiting) && (s.waiting == [] || s.waiting[0].cond >= s.clock)
    ensures Iterate(cap, periods, s, a) == s.(clock := s.clock + a.before + a.after)
  {
    DelayAndPriorityAreWakeRelations();
    OnlyHeadRuns(DELAY, s.waiting, s.clock);
  }

  // ---------------------------------------------------------------- when the tasks are due

  lemma RoomForNew(cap: nat, periods: seq<nat>, s: Sys)
    requires Inv(periods, s) && |periods| < cap
    ensures |s.waiting| < cap
  {
    BelowLength(periods, s, Handles(s.waiting));
    assert TaskWaits(periods, s, |s.left|);
    Room(Handles(s.waiting), |periods| + 1, |periods|);
  }

  /** A new task waits for its period, counted from the time at which it is created. */
  lemma StartExpiry(cap: nat, periods: seq<nat>, s: Sys, period: nat, count: nat)
    requires Inv(periods, s) && |periods| < cap
    ensures var s' := StartTask(cap, s, period, count);
            && s'.clock == s.clock && s'.ran == s.ran
            && s'.left == s.left + [Awaits(period, count)]
            && multiset(s'.waiting) == multiset(s.waiting)
                 + (if Awaits(period, count) > 0 then multiset{Entry(|s.left|, s.clock + 1000 * period)} else multiset{})
  {
    hide TaskWaits, Sorted, Distinct, Handles, Insert, WakeRelation;
    RoomForNew(cap, periods, s);
    DelayAndPriorityAreWakeRelations();
    InsertKeepsSorted(DELAY, cap, s.waiting, Entry(|s.left|, s.clock + 1000 * period));
  }

  /** A resumed task with awaits left waits for its period, counted from the time of its await; nothing
      else changes in the list. */
  lemma RunExpiry(cap: nat, periods: seq<nat>, s: Sys, a: Advance)
    requires Inv(periods, s) && |periods| <= cap && s.waiting != [] && s.waiting[0].cond < s.clock
    ensures var h, s' := s.waiting[0].handle, Iterate(cap, periods, s, a);
            && h < |s.left| && s.left[h] > 0
            && s'.clock == s.clock + a.before + a.after && s'.ran == s.ran + [h] && s'.left == s.left[h := s.left[h] - 1]
            && multiset(s'.waiting) == multiset(s.waiting[1..])
                 + (if s.left[h] > 1 then multiset{Entry(h, s.clock + a.before + 1000 * periods[h])} else multiset{})
  {
    hide TaskWaits, Sorted, Distinct, Handles, Iterate, InsertAll, WakeRelation;
    var h, ws := s.waiting[0].handle, s.waiting[1..];
    WaitingIsSuspended(periods, s, 0);
    IterateRuns(cap, periods, s, a);
    RoomForNext(periods, s);
    DelayAndPriorityAreWakeRelations();
    var next := NextAwait(periods, s.left, s.clock + a.before, h);
    InsertAllAdds(DELAY, cap, ws, next);
    assert next[..FitCount(cap, |ws|, |next|)] == next;
  }

  lemma RoomForNext(periods: seq<nat>, s: Sys)
    requires Inv(periods, s) && s.waiting != []
    ensures |s.waiting[1..]| < |periods| && Sorted(DELAY, s.waiting[1..])
  {
    var ws := s.waiting[1..];
    WaitingIsSuspended(periods, s, 0);
    RemoveHandles(s.waiting, 0);
    assert RemoveAt(s.waiting, 0) == ws;
    BelowLength(periods, s, Handles(ws));
    Room(Handles(ws), |periods|, s.waiting[0].handle);
  }

  // ---------------------------------------------------------------- progress

  lemma {:induction false} SumDecrement(ns: seq<nat>, h: nat)
    requires h < |ns| && ns[h] > 0
    ensures Sum(ns[h := ns[h] - 1]) == Sum(ns) - 1
  {
    if h == 0 {
      assert ns[0 := ns[0] - 1][1..] == ns[1..];
    } else {
      SumDecrement(ns[1..], h - 1);
      assert ns[h := ns[h] - 1][1..] == ns[1..][h - 1 := ns[h] - 1];
    }
  }

  lemma {:induction false} SumZero(ns: seq<nat>)
    ensures Sum(ns) == 0 <==> forall h :: 0 <= h < |ns| ==> ns[h] == 0
  {
    if ns != [] {
      SumZero(ns[1..]);
      assert forall h :: 1 <= h < |ns| ==> ns[h] == ns[1..][h - 1];
    }
  }

  /** The balance of a task: what it has left plus what it was resumed. */
  function Balance(s: Sys, h: nat): nat
    requires h < |s.left|
  {
    CountOf(s.ran, h) + s.left[h]
  }

  ghost predicate Balanced(s: Sys, s': Sys) {
    && |s'.left| == |s.left|
    && |s'.ran| + Sum(s'.left) == |s.ran| + Sum(s.left)
    && (forall h :: 0 <= h < |s.left| ==> Balance(s', h) == Balance(s, h))
  }

  /** How long the head still keeps the loop waiting. */
  function Patience(s: Sys): nat {
    if s.waiting == [] || s.waiting[0].cond < s.clock then 0 else s.waiting[0].cond + 1 - s.clock
  }

  /** An iteration either resumes one task or brings the clock closer to the head's expiry. */
  lemma IterateProgress(cap: nat, periods: seq<nat>, s: Sys, a: Advance)
    requires Inv(periods, s) && |periods| <= cap && a.Positive()
    ensures var s' := Iterate(cap, periods, s, a);
            && Balanced(s, s')
            && (if s.waiting != [] && s.waiting[0].cond < s.clock then Sum(s'.left) == Sum(s.left) - 1
                else s'.left == s.left && s'.waiting == s.waiting && s'.ran == s.ran
                     && (s.waiting != [] ==> Patience(s') < Patience(s)))
  {
    hide TaskWaits, Distinct, Handles, InsertAll, Insert, NextAwait, Iterate, Count;
    if s.waiting != [] && s.waiting[0].cond < s.clock {
      var h := s.waiting[0].handle;
      WaitingIsSuspended(periods, s, 0);
      IterateRuns(cap, periods, s, a);
      SumDecrement(s.left, h);
      RunCounts(s, Iterate(cap, periods, s, a), h);
    } else {
      IterateIdles(cap, periods, s, a);
    }
  }

  /** One await less for the task resumed. */
  lemma RunCounts(s: Sys, s': Sys, h: nat)
    requires h < |s.left| && s.left[h] > 0 && s'.left == s.left[h := s.left[h] - 1] && s'.ran == s.ran + [h]
    ensures forall k :: 0 <= k < |s.left| ==> Balance(s', k) == Balance(s, k)
  {
    forall k | 0 <= k < |s.left| ensures Balance(s', k) == Balance(s, k) {
      CountLast(s.ran, h, Is(k));
    }
  }

  /** n iterations, the clock advancing by adv(i), adv(i + 1), ... */
  function Loop(cap: nat, periods: seq<nat>, s: Sys, adv: nat -> Advance, i: nat, n: nat): (s': Sys)
    requires |s.left| == |periods|
    ensures |s'.left| == |periods|
    decreases n
  {
    if n == 0 then s else Loop(cap, periods, Iterate(cap, periods, s, adv(i)), adv, i + 1, n - 1)
  }

  lemma WaitingEmptyIff(periods: seq<nat>, s: Sys)
    requires Inv(periods, s)
    ensures s.waiting == [] <==> Sum(s.left) == 0
  {
    SumZero(s.left);
    if s.waiting == [] {
      forall h: nat | h < |s.left| ensures s.left[h] == 0 {
        assert TaskWaits(periods, s, h);
      }
    } else {
      WaitingIsSuspended(periods, s, 0);
    }
  }

  lemma FirstIteration(cap: nat, periods: seq<nat>, s: Sys, adv: nat -> Advance, i: nat) returns (s1: Sys)
    requires Inv(periods, s) && |periods| <= cap && Advances(adv) && s.waiting != []
    ensures Inv(periods, s1) && Balanced(s, s1)
    ensures Sum(s1.left) < Sum(s.left) || (Sum(s1.left) == Sum(s.left) && Patience(s1) < Patience(s))
    ensures forall m: nat {:trigger Loop(cap, periods, s1, adv, i + 1, m)} ::
              Loop(cap, periods, s, adv, i, m + 1) == Loop(cap, periods, s1, adv, i + 1, m)
  {
    IterateKeepsInv(cap, periods, s, adv(i));
    IterateProgress(cap, periods, s, adv(i));
    s1 := Iterate(cap, periods, s, adv(i));
  }

  lemma BalancedTransitive(s: Sys, s1: Sys, s2: Sys)
    requires Balanced(s, s1) && Balanced(s1, s2)
    ensures Balanced(s, s2)
  {
  }

  lemma {:induction false} LoopFinishes(cap: nat, periods: seq<nat>, s: Sys, adv: nat -> Advance, i: nat)
      returns (n: nat, s': Sys)
    requires Inv(periods, s) && |periods| <= cap && Advances(adv)
    ensures s' == Loop(cap, periods, s, adv, i, n)
    ensures Balanced(s, s') && s'.waiting == [] && Sum(s'.left) == 0
    decreases Sum(s.left), Patience(s)
  {
    WaitingEmptyIff(periods, s);
    if s.waiting == [] {
      n, s' := 0, s;
    } else {
      var s1 := FirstIteration(cap, periods, s, adv, i);
      n, s' := LoopFinishes(cap, periods, s1, adv, i + 1);
      n := n + 1;
      BalancedTransitive(s, s1, s');
    }
  }

  /** Any set of periodic tasks with finite counts that fits the capacity finishes, however the clock
      advances as long as it does in every iteration.  Each task is resumed exactly as often as it
      awaits, so the successful calls of `resume` number the sum of the counts. */
  lemma Finishes(cap: nat, periods: seq<nat>, s: Sys, adv: nat -> Advance) returns (n: nat)
    requires Inv(periods, s) && |periods| <= cap && Advances(adv)
    ensures var s' := Loop(cap, periods, s, adv, 0, n);
            && s'.waiting == [] && |s'.left| == |s.left|
            && |s'.ran| == |s.ran| + Sum(s.left)
            && (forall h :: 0 <= h < |s.left| ==> s'.left[h] == 0 && CountOf(s'.ran, h) == CountOf(s.ran, h) + s.left[h])
  {
    var s';
    n, s' := LoopFinishes(cap, periods, s, adv, 0);
    SumZero(s'.left);
    forall h | 0 <= h < |s.left|
      ensures s'.left[h] == 0 && CountOf(s'.ran, h) == CountOf(s.ran, h) + s.left[h]
    {
      assert Balance(s', h) == Balance(s, h);
    }
  }

  /** The main program creates the tasks in order; some time passes before each. */
  function StartAll(cap: nat, clock: int, periods: seq<nat>, counts: seq<nat>, gaps: seq<nat>): (s: Sys)
    requires |periods| == |counts| == |gaps|
    ensures |s.left| == |periods|
  {
    if periods == [] then Sys(clock, [], [], []) else
      var n := |periods| - 1;
      var s := StartAll(cap, clock, periods[..n], counts[..n], gaps[..n]);
      StartTask(cap, s.(clock := s.clock + gaps[n]), periods[n], counts[n])
  }

  function Awaits(period: nat, count: nat): nat {
    if period == 0 then 0 else count
  }

  lemma {:induction false} StartAllInv(cap: nat, clock: int, periods: seq<nat>, counts: seq<nat>, gaps: seq<nat>)
    requires |periods| == |counts| == |gaps| <= cap
    ensures var s := StartAll(cap, clock, periods, counts, gaps);
            && Inv(periods, s) && s.ran == [] && |s.left| == |periods|
            && forall h :: 0 <= h < |periods| ==> s.left[h] == Awaits(periods[h], counts[h])
  {
    if periods != [] {
      var n := |periods| - 1;
      StartAllInv(cap, clock, periods[..n], counts[..n], gaps[..n]);
      var s := StartAll(cap, clock, periods[..n], counts[..n], gaps[..n]);
      TimeKeepsInv(periods[..n], s, s.clock + gaps[n]);
      StartKeepsInv(cap, periods[..n], s.(clock := s.clock + gaps[n]), periods[n], counts[n]);
      assert periods[..n] + [periods[n]] == periods;
    }
  }

  /** From the creation of the tasks to the end: every task is resumed exactly as often as its count
      says, or not at all for a zero period. */
  lemma WholeRun(cap: nat, clock: int, periods: seq<nat>, counts: seq<nat>, gaps: seq<nat>, adv: nat -> Advance)
      returns (n: nat, s': Sys)
    requires |periods| == |counts| == |gaps| <= cap && Advances(adv)
    ensures |StartAll(cap, clock, periods, counts, gaps).left| == |periods|
    ensures s' == Loop(cap, periods, StartAll(cap, clock, periods, counts, gaps), adv, 0, n)
    ensures s'.waiting == []
    ensures forall h :: 0 <= h < |periods| ==> CountOf(s'.ran, h) == Awaits(periods[h], counts[h])
    ensures |s'.ran| == Sum(seq(|periods|, h requires 0 <= h < |periods| => Awaits(periods[h], counts[h])))
  {
    StartAllInv(cap, clock, periods, counts, gaps);
    var s := StartAll(cap, clock, periods, counts, gaps);
    n := Finishes(cap, periods, s, adv);
    s' := Loop(cap, periods, s, adv, 0, n);
    assert s.left == seq(|periods|, h requires 0 <= h < |periods| => Awaits(periods[h], counts[h]));
  }
}
