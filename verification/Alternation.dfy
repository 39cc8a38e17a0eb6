/** Tasks that go back and forth between schedulers, under any sequence of `resume` calls
    (test/test_unordered.cpp:37-50, 87-141). */
module Alternation {
  import opened Sequences
  import opened WakeOrder
  import opened Coroutines
  import opened Placement

  function Calls<F>(body: Body<F>, w: World<F>, calls: seq<nat>): World<F>
    decreases |calls|
  {
    if calls == [] then w else Calls(body, Call(body, w, calls[0]), calls[1..])
  }

  /** The schedulers the task will await from now on, the current one included, are exactly `plan`. */
  ghost predicate Future<F>(body: Body<F>, h: nat, f: F, await: Option<nat>, plan: seq<nat>)
    decreases |plan|
  {
    if plan == [] then await == None
    else await == Some(plan[0]) && Future(body, h, body(h, f).frame, body(h, f).await, plan[1..])
  }

  /** The frame after g resumptions. */
  function After<F>(body: Body<F>, h: nat, f: F, g: nat): F
    decreases g
  {
    if g == 0 then f else After(body, h, body(h, f).frame, g - 1)
  }

  /** Take each call that is the next of the plan. */
  function Greedy(plan: seq<nat>, calls: seq<nat>): (g: nat)
    ensures g <= |plan|
    decreases |calls|
  {
    if plan == [] || calls == [] then 0
    else if plan[0] == calls[0] then 1 + Greedy(plan[1..], calls[1..])
    else Greedy(plan, calls[1..])
  }

  /** The calls taken make up the longest prefix of the plan that is a subsequence of the calls. */
  lemma {:induction false} GreedyIsLongest(plan: seq<nat>, calls: seq<nat>, l: nat)
    requires l <= |plan|
    ensures Subsequence(plan[..l], calls) <==> l <= Greedy(plan, calls)
    decreases |calls|
  {
    if l > 0 && calls != [] {
      assert plan[..l][1..] == plan[1..][..l - 1];
      if plan[0] == calls[0] {
        GreedyIsLongest(plan[1..], calls[1..], l - 1);
        if Subsequence(plan[..l], calls) { DropFirst(plan[..l], calls); }
      } else {
        GreedyIsLongest(plan, calls[1..], l);
      }
    }
  }

  /** Among tasks that always move on and fit the capacities, a task is resumed once for each call of
      the greedy choice, whatever the other tasks do. */
  lemma {:induction false} ResumedGreedily<F(!new)>(
      body: Body<F>, at: (nat, F) -> Option<nat>, uses: Uses, w: World<F>, calls: seq<nat>, h: nat, plan: seq<nat>)
    requires Good(uses, w) && Respects(body, uses, |w.queues|) && Quiet(body) && MovesOn(body, at) && Tracks(w, at)
    requires h < |w.frames| && Future(body, h, w.frames[h], w.waitingOn[h], plan)
    ensures var w', g := Calls(body, w, calls), Greedy(plan, calls);
            && Good(uses, w') && Tracks(w', at) && |w'.frames| == |w.frames|
            && Resumed(w'.log, h) == Resumed(w.log, h) + g
            && w'.frames[h] == After(body, h, w.frames[h], g)
            && Future(body, h, w'.frames[h], w'.waitingOn[h], plan[g..])
    decreases |calls|
  {
    if calls == [] {
      assert plan[0..] == plan;
    } else {
      var s, w1 := calls[0], Call(body, w, calls[0]);
      if s < |w.queues| {
        CallResumesEachOnce(body, at, uses, w, s);
        GoodQueueIs(uses, w, s);
        OneList(uses, w, h, s);
        CountTag(w.log, w.queues[s], s, OfTask(h), h);
      } else {
        AwaitsInRange(uses, w, h);
      }
      var taken := plan != [] && plan[0] == s;
      var plan1 := if taken then plan[1..] else plan;
      ResumedGreedily(body, at, uses, w1, calls[1..], h, plan1);
      assert plan1[Greedy(plan1, calls[1..])..] == plan[Greedy(plan, calls)..];
    }
  }

  lemma AwaitsInRange<F>(uses: Uses, w: World<F>, h: nat)
    requires Good(uses, w) && h < |w.frames|
    ensures w.waitingOn[h].Some? ==> w.waitingOn[h].value < |w.queues|
  {
    assert TaskPlaced(uses, w, h);
  }

  // ---------------------------------------------------------------- double_coro_loop

  const A: nat := 0
  const B: nat := 1

  /** The frame of `double_coro_loop`: its run count, the loop variable, where it is suspended, and
      its two counters. */
  datatype LoopFrame = LoopFrame(n: nat, i: nat, atB: bool, done: bool, countA: nat, countB: nat)

  const LOOP: Body<LoopFrame> := (h: nat, f: LoopFrame) => LoopBody(f)

  function LoopBody(f: LoopFrame): Next<LoopFrame> {
    if f.done then Next(f, [], None)
    else if !f.atB then Next(f.(countA := f.i + 1, atB := true), [], Some(B))
    else if f.i + 1 < f.n then Next(f.(countB := f.i + 1, i := f.i + 1, atB := false), [], Some(A))
    else Next(f.(countB := f.i + 1, i := f.i + 1, atB := false, done := true), [], None)
  }

  const LOOP_AT: (nat, LoopFrame) -> Option<nat> :=
    (h: nat, f: LoopFrame) => if f.done then None else if f.atB then Some(B) else Some(A)

  const LOOP_USES: Uses := (h: nat, s: nat) => s < 2

  /** k awaits, alternating. */
  function Alternating(s: nat, k: nat): seq<nat>
    requires s < 2
    ensures |Alternating(s, k)| == k
    decreases k
  {
    if k == 0 then [] else [s] + Alternating(1 - s, k - 1)
  }

  /** The counters say how far the task is. */
  ghost predicate LoopInv(f: LoopFrame) {
    && f.i <= f.n
    && f.done == (f.i == f.n)
    && (f.atB ==> f.i < f.n)
    && f.countB == f.i
    && f.countA == if f.atB then f.i + 1 else f.i
  }

  function Left(f: LoopFrame): nat
    requires LoopInv(f)
  {
    2 * f.n - (f.countA + f.countB)
  }

  lemma {:induction false} LoopFuture(h: nat, f: LoopFrame)
    requires LoopInv(f)
    ensures Future(LOOP, h, f, LOOP_AT(h, f), Alternating(if f.atB then B else A, Left(f)))
    decreases Left(f)
  {
    if !f.done {
      var s := if f.atB then B else A;
      LoopFuture(h, LoopBody(f).frame);
      assert Alternating(s, Left(f))[1..] == Alternating(1 - s, Left(f) - 1);
    }
  }

  lemma {:induction false} LoopAfter(h: nat, f: LoopFrame, g: nat)
    requires LoopInv(f) && g <= Left(f)
    ensures var f' := After(LOOP, h, f, g); LoopInv(f') && f'.n == f.n && Left(f') == Left(f) - g
    decreases g
  {
    if g > 0 {
      LoopAfter(h, LoopBody(f).frame, g - 1);
    }
  }

  /** k tasks with run counts ns, started in order on schedulers that can hold them all. */
  ghost predicate Started(w: World<LoopFrame>, ns: seq<nat>) {
    && |w.caps| == |w.queues| == 2 && |w.frames| == |w.waitingOn| == |ns|
    && w.caps[A] >= |ns| && w.caps[B] >= |ns|
    && w.queues[B] == [] && w.log == [] && w.dropped == 0
    && Distinct(w.queues[A]) && |w.queues[A]| <= |ns|
    && (forall h: nat :: h in w.queues[A] <==> h < |ns| && ns[h] > 0)
    && (forall h :: 0 <= h < |ns| ==>
          && w.frames[h] == LoopFrame(ns[h], 0, false, ns[h] == 0, 0, 0)
          && w.waitingOn[h] == if ns[h] == 0 then None else Some(A))
  }

  /** The handles of the tasks that run at all. */
  function Starters(ns: seq<nat>): (q: seq<nat>)
    ensures forall i :: 0 <= i < |q| ==> q[i] < |ns|
  {
    if ns == [] then [] else
      var n := |ns| - 1;
      var q := Starters(ns[..n]);
      if ns[n] > 0 then q + [n] else q
  }

  lemma {:induction false} StartersOnce(ns: seq<nat>)
    ensures Distinct(Starters(ns)) && |Starters(ns)| <= |ns|
    ensures forall h: nat :: h in Starters(ns) <==> h < |ns| && ns[h] > 0
  {
    if ns != [] {
      var n := |ns| - 1;
      var q := Starters(ns[..n]);
      StartersOnce(ns[..n]);
      hide Distinct;
      if ns[n] > 0 {
        assert n !in q;
        DistinctInsert<nat>(q, |q|, n);
        assert InsertAt(q, |q|, n) == q + [n];
      }
    }
  }

  function FirstFrames(ns: seq<nat>): seq<LoopFrame> {
    seq(|ns|, h requires 0 <= h < |ns| => LoopFrame(ns[h], 0, false, ns[h] == 0, 0, 0))
  }

  /** The tasks after the first k have been created, in order, on empty schedulers: those that run at all
      are suspended on A. */
  function Created(ns: seq<nat>, capA: nat, capB: nat, k: nat): World<LoopFrame>
    requires k <= |ns|
  {
    World([capA, capB], [Starters(ns[..k]), []], FirstFrames(ns),
          seq(|ns|, h requires 0 <= h < |ns| => if h < k && ns[h] > 0 then Some(A) else None), [], 0)
  }

  function StartLoops(ns: seq<nat>, capA: nat, capB: nat): World<LoopFrame> {
    Created(ns, capA, capB, |ns|)
  }

  /** Creating one more task takes it to its first await, unless its run count is zero. */
  lemma CreateOneMore(ns: seq<nat>, capA: nat, capB: nat, k: nat)
    requires k < |ns| <= capA
    ensures Created(ns, capA, capB, k + 1)
         == if ns[k] > 0 then Launch(Created(ns, capA, capB, k), Start(k, LoopFrame(ns[k], 0, false, false, 0, 0), A))
            else Created(ns, capA, capB, k)
  {
    var w, w' := Created(ns, capA, capB, k), Created(ns, capA, capB, k + 1);
    StartersOnce(ns[..k]);
    assert ns[..k + 1][..k] == ns[..k];
    assert w'.waitingOn == if ns[k] > 0 then w.waitingOn[k := Some(A)] else w.waitingOn;
    if ns[k] > 0 {
      assert w.frames[k := LoopFrame(ns[k], 0, false, false, 0, 0)] == w.frames;
      assert w'.queues == w.queues[A := w.queues[A] + [k]];
    }
  }

  lemma StartLoopsStarted(ns: seq<nat>, capA: nat, capB: nat)
    requires capA >= |ns| && capB >= |ns|
    ensures Started(StartLoops(ns, capA, capB), ns)
  {
    StartersOnce(ns);
    assert ns[..|ns|] == ns;
  }

  lemma StartedIsGood(w: World<LoopFrame>, ns: seq<nat>)
    requires Started(w, ns)
    ensures Good(LOOP_USES, w) && Tracks(w, LOOP_AT)
  {
    assert QueueOk(w, A) && QueueOk(w, B);
    forall s | 0 <= s < 2 ensures |Users(LOOP_USES, |ns|, s)| <= w.caps[s] {
      var all: set<nat> := set h: nat | h < |ns| && LOOP_USES(h, s);
      var ints: set<int> := all;
      CardMonotone(ints, Below(|ns|));
    }
    forall h | 0 <= h < |ns| ensures TaskPlaced(LOOP_USES, w, h) {}
  }

  lemma LoopMovesOn()
    ensures MovesOn(LOOP, LOOP_AT) && Respects(LOOP, LOOP_USES, 2) && Quiet(LOOP)
  {
    forall h, f
      ensures var nx := LOOP(h, f);
              && nx.starts == [] && LOOP_AT(h, nx.frame) == nx.await
              && (nx.await.Some? ==> nx.await != LOOP_AT(h, f) && nx.await.value < 2)
    {
      LoopSteps(f);
    }
  }

  lemma LoopSteps(f: LoopFrame)
    ensures var nx := LoopBody(f);
            && nx.starts == [] && nx.await == (if nx.frame.done then None else if nx.frame.atB then Some(B) else Some(A))
            && (nx.await.Some? ==> nx.await.value < 2 && nx.await != if f.done then None else if f.atB then Some(B) else Some(A))
  {
  }

  /** Where a task with run count n is after these calls. */
  ghost predicate LoopOutcome(w: World<LoopFrame>, h: nat, n: nat, calls: seq<nat>) {
    var plan := Alternating(A, 2 * n);
    && h < |w.frames|
    && var sum := w.frames[h].countA + w.frames[h].countB;
       && w.frames[h].countB <= w.frames[h].countA <= w.frames[h].countB + 1
       && sum <= |plan| && Resumed(w.log, h) == sum
       && forall l :: 0 <= l <= |plan| ==> (Subsequence(plan[..l], calls) <==> l <= sum)
  }

  lemma OutcomeOfGreedy(w: World<LoopFrame>, h: nat, n: nat, calls: seq<nat>)
    requires h < |w.frames| && LoopInv(w.frames[h])
    requires var g := Greedy(Alternating(A, 2 * n), calls);
             w.frames[h].countA + w.frames[h].countB == g && Resumed(w.log, h) == g
    ensures LoopOutcome(w, h, n, calls)
  {
    var plan := Alternating(A, 2 * n);
    forall l | 0 <= l <= |plan| ensures Subsequence(plan[..l], calls) <==> l <= Greedy(plan, calls) {
      GreedyIsLongest(plan, calls, l);
    }
  }

  lemma StartedFrame(w: World<LoopFrame>, ns: seq<nat>, h: nat)
    requires Started(w, ns) && h < |ns|
    ensures |w.queues| == 2 && h < |w.frames| == |w.waitingOn| && Resumed(w.log, h) == 0
    ensures var f := w.frames[h];
            LoopInv(f) && !f.atB && Left(f) == 2 * ns[h] && f.n == ns[h] && w.waitingOn[h] == LOOP_AT(h, f)
  {
  }

  lemma LoopsFrom(w: World<LoopFrame>, ns: seq<nat>, calls: seq<nat>, h: nat)
    requires Started(w, ns) && h < |ns|
    ensures LoopOutcome(Calls(LOOP, w, calls), h, ns[h], calls)
  {
    hide Good, Tracks, MovesOn, Respects, Quiet, Calls, Future, Started, LoopOutcome, Greedy, Resumed, After, LoopInv, Left;
    StartedIsGood(w, ns);
    StartedFrame(w, ns, h);
    LoopMovesOn();
    LoopFuture(h, w.frames[h]);
    ResumedGreedily(LOOP, LOOP_AT, LOOP_USES, w, calls, h, Alternating(A, 2 * ns[h]));
    LoopAfter(h, w.frames[h], Greedy(Alternating(A, 2 * ns[h]), calls));
    LeftIsCounts(w.frames[h], After(LOOP, h, w.frames[h], Greedy(Alternating(A, 2 * ns[h]), calls)));
    OutcomeOfGreedy(Calls(LOOP, w, calls), h, ns[h], calls);
  }

  lemma LeftIsCounts(f: LoopFrame, f': LoopFrame)
    requires LoopInv(f) && LoopInv(f') && f'.n == f.n && Left(f) == 2 * f.n
    ensures f'.countA + f'.countB == Left(f) - Left(f')
  {
  }

  /** After any sequence of calls the two counters of each task sum to the length of the longest prefix
      of abab... (twice its run count long) that is a subsequence of the calls, the first counter
      leading by at most one.  Its number of resumptions is the same sum. */
  lemma DoubleLoop(ns: seq<nat>, capA: nat, capB: nat, calls: seq<nat>, h: nat)
    requires capA >= |ns| && capB >= |ns| && h < |ns|
    ensures LoopOutcome(Calls(LOOP, StartLoops(ns, capA, capB), calls), h, ns[h], calls)
  {
    hide LoopOutcome, Calls, StartLoops, Started;
    StartLoopsStarted(ns, capA, capB);
    LoopsFrom(StartLoops(ns, capA, capB), ns, calls, h);
  }
}
