/** Several unordered schedulers sharing their tasks: where the tasks are, and why no insertion is
    dropped while the tasks that use a scheduler number at most its capacity. */
module Placement {
  import opened Sequences
  import opened WakeOrder
  import opened Coroutines

  /** uses(h, s): task h may await scheduler s. */
  type Uses = (nat, nat) -> bool

  ghost function Users(uses: Uses, n: nat, s: nat): set<nat> {
    set h: nat | h < n && uses(h, s)
  }

  ghost predicate Respects<F(!new)>(body: Body<F>, uses: Uses, n: nat) {
    forall h, f :: body(h, f).await.Some? ==> body(h, f).await.value < n && uses(h, body(h, f).await.value)
  }

  ghost predicate Fits<F>(uses: Uses, w: World<F>)
    requires |w.caps| == |w.queues|
  {
    forall s :: 0 <= s < |w.queues| ==> |Users(uses, |w.frames|, s)| <= w.caps[s]
  }

  /** A suspended task is in the list of the scheduler it awaits. */
  ghost predicate TaskPlaced<F>(uses: Uses, w: World<F>, h: nat)
    requires h < |w.waitingOn|
  {
    w.waitingOn[h].Some? ==>
      var s := w.waitingOn[h].value;
      s < |w.queues| && h in w.queues[s] && uses(h, s)
  }

  ghost predicate Good<F>(uses: Uses, w: World<F>) {
    && Shape(w) && Fits(uses, w) && w.dropped == 0
    && forall h :: 0 <= h < |w.frames| ==> TaskPlaced(uses, w, h)
  }

  /** So each task sits in one list at most. */
  lemma OneList<F>(uses: Uses, w: World<F>, h: nat, s: nat)
    requires Good(uses, w) && h < |w.frames| && s < |w.queues|
    ensures h in w.queues[s] <==> w.waitingOn[h] == Some(s)
  {
    assert QueueOk(w, s) && TaskPlaced(uses, w, h);
  }

  lemma GoodQueueIs<F>(uses: Uses, w: World<F>, s: nat)
    requires Good(uses, w) && s < |w.queues|
    ensures QueueIs(w, s, w.queues[s])
  {
    assert QueueOk(w, s);
    forall i | 0 <= i < |w.queues[s]| ensures w.queues[s][i] < |w.frames| { assert w.queues[s][i] in w.queues[s]; }
  }

  /** There is room for a task that uses s and is not in its list. */
  lemma RoomFor<F>(uses: Uses, w: World<F>, q: seq<nat>, s: nat, h: nat)
    requires |w.caps| == |w.queues| && s < |w.queues| && Fits(uses, w)
    requires h < |w.frames| && uses(h, s) && h !in q && Distinct(q)
    requires forall x :: x in q ==> x < |w.frames| && uses(x, s)
    ensures |q| < w.caps[s]
  {
    DistinctCard(q);
    var xs := set x | x in q;
    CardMonotone(xs + {h}, Users(uses, |w.frames|, s));
  }

  // ---------------------------------------------------------------- nothing is dropped

  /** A task may be inserted when it is not suspended already, into the list of a scheduler it uses. */
  ghost predicate Legal<F>(uses: Uses, w: World<F>, st: Start<F>) {
    && st.task < |w.frames| == |w.waitingOn| && st.sched < |w.queues|
    && w.waitingOn[st.task] == None && uses(st.task, st.sched)
  }

  ghost predicate LegalAll<F>(uses: Uses, w: World<F>, sts: seq<Start<F>>)
    decreases |sts|
  {
    sts == [] || (Legal(uses, w, sts[0]) && LegalAll(uses, Launch(w, sts[0]), sts[1..]))
  }

  ghost predicate LegalRun<F>(body: Body<F>, uses: Uses, w: World<F>, evs: seq<Event<F>>)
    decreases |evs|
  {
    evs == []
    || (LegalAll(uses, StepBase(body, w, evs[0]), StepStarts(body, w, evs[0]))
        && LegalRun(body, uses, Step(body, w, evs[0]), evs[1..]))
  }

  ghost predicate SameSize<F>(w: World<F>, w': World<F>) {
    |w'.queues| == |w.queues| && |w'.frames| == |w.frames|
  }

  lemma PoppedQueues<F>(uses: Uses, w: World<F>, s: nat, t: nat)
    requires Good(uses, w) && s < |w.queues| && w.queues[s] != [] && t < |w.queues|
    ensures var h, q := w.queues[s][0], Popped(w, s).queues[t];
            && h < |w.frames| && Distinct(q) && h !in q && |q| <= w.caps[t]
            && forall x :: x in q <==> x in w.queues[t] && x != h
  {
    assert QueueOk(w, s) && QueueOk(w, t);
    var q := w.queues[s];
    DistinctRemove(q, 0);
    assert RemoveAt(q, 0) == q[1..];
    assert q[0] in q;
  }

  /** Taking a task out of its list and running it leaves the others where they are. */
  lemma RunningKeepsGood<F>(uses: Uses, w: World<F>, s: nat, frame: F)
    requires Good(uses, w) && HasWork(w, s)
    ensures var w' := Running(Popped(w, s), s, w.queues[s][0], frame);
            Good(uses, w') && SameSize(w, w') && w'.waitingOn[w.queues[s][0]] == None
  {
    var h, w' := w.queues[s][0], Running(Popped(w, s), s, w.queues[s][0], frame);
    forall t | 0 <= t < |w.queues| ensures QueueOk(w', t) {
      PoppedQueues(uses, w, s, t);
      assert QueueOk(w, t);
    }
    forall x | 0 <= x < |w.frames| ensures TaskPlaced(uses, w', x) {
      assert TaskPlaced(uses, w, x);
      if x != h && w.waitingOn[x].Some? { PoppedQueues(uses, w, s, w.waitingOn[x].value); }
    }
  }

  /** A legal insertion finds room. */
  lemma LaunchKeepsGood<F>(uses: Uses, w: World<F>, st: Start<F>)
    requires Good(uses, w) && Legal(uses, w, st)
    ensures Good(uses, Launch(w, st)) && SameSize(w, Launch(w, st))
  {
    var h, t, w' := st.task, st.sched, Launch(w, st);
    var q := w.queues[t];
    assert QueueOk(w, t);
    forall x | x in q ensures uses(x, t) { assert TaskPlaced(uses, w, x); }
    RoomFor(uses, w, q, t, h);
    DistinctInsert(q, |q|, h);
    assert InsertAt(q, |q|, h) == q + [h];
    forall u | 0 <= u < |w.queues| ensures QueueOk(w', u) {
      assert QueueOk(w, u);
    }
    forall x | 0 <= x < |w.frames| ensures TaskPlaced(uses, w', x) {
      assert TaskPlaced(uses, w, x);
    }
  }

  lemma {:induction false} LaunchAllKeepsGood<F>(uses: Uses, w: World<F>, sts: seq<Start<F>>)
    requires Good(uses, w) && LegalAll(uses, w, sts)
    ensures Good(uses, LaunchAll(w, sts)) && SameSize(w, LaunchAll(w, sts))
    decreases |sts|
  {
    hide Good, Launch, Legal;
    if sts != [] {
      LaunchKeepsGood(uses, w, sts[0]);
      LaunchAllKeepsGood(uses, Launch(w, sts[0]), sts[1..]);
    }
  }

  lemma StepKeepsGood<F>(body: Body<F>, uses: Uses, w: World<F>, ev: Event<F>)
    requires Good(uses, w) && LegalAll(uses, StepBase(body, w, ev), StepStarts(body, w, ev))
    ensures Good(uses, Step(body, w, ev)) && SameSize(w, Step(body, w, ev))
  {
    hide Good, LaunchAll, LegalAll, StepStarts;
    StepIsLaunches(body, w, ev);
    if ev.Go? && HasWork(w, ev.s) {
      RunningKeepsGood(uses, w, ev.s, body(w.queues[ev.s][0], w.frames[w.queues[ev.s][0]]).frame);
    }
    LaunchAllKeepsGood(uses, StepBase(body, w, ev), StepStarts(body, w, ev));
  }

  /** In any run of turns of all the lists and insertions by the main program, with coroutines that
      start others: as long as each insertion is of a task that is not suspended, into a list with
      room for all its users, none is dropped and every suspended task sits in the list it awaits. */
  lemma {:induction false} NeverDropped<F>(body: Body<F>, uses: Uses, w: World<F>, evs: seq<Event<F>>)
    requires Good(uses, w) && LegalRun(body, uses, w, evs)
    ensures var w' := Drive(body, w, evs);
            Good(uses, w') && SameSize(w, w') && w'.dropped == 0
    decreases |evs|
  {
    hide LegalAll, Step;
    if evs != [] {
      StepKeepsGood(body, uses, w, evs[0]);
      NeverDropped(body, uses, Step(body, w, evs[0]), evs[1..]);
    }
  }

  // ---------------------------------------------------------------- coroutines that start no others

  /** Their insertions are legal by themselves. */
  lemma QuietTurnLegal<F(!new)>(body: Body<F>, uses: Uses, w: World<F>, s: nat)
    requires Good(uses, w) && Respects(body, uses, |w.queues|) && Quiet(body)
    ensures LegalAll(uses, StepBase(body, w, Go(s)), StepStarts(body, w, Go(s)))
  {
    if HasWork(w, s) {
      var h := w.queues[s][0];
      var nx, base := body(h, w.frames[h]), StepBase(body, w, Go(s));
      if nx.await.Some? {
        var st := Start(h, nx.frame, nx.await.value);
        assert StepStarts(body, w, Go(s)) == [st] && [st][1..] == [];
        assert Legal(uses, base, st) && LegalAll(uses, Launch(base, st), []);
      } else {
        assert StepStarts(body, w, Go(s)) == [];
      }
    }
  }

  lemma {:induction false} TurnsKeepGood<F(!new)>(body: Body<F>, uses: Uses, w: World<F>, s: nat, n: nat)
    requires Good(uses, w) && Respects(body, uses, |w.queues|) && Quiet(body)
    ensures Good(uses, Turns(body, w, s, n)) && SameSize(w, Turns(body, w, s, n))
    decreases n
  {
    hide Good, Respects, Quiet, Turn, LegalAll;
    if n > 0 {
      QuietTurnLegal(body, uses, w, s);
      StepKeepsGood(body, uses, w, Go(s));
      assert Step(body, w, Go(s)) == Turn(body, w, s);
      TurnsKeepGood(body, uses, Turn(body, w, s), s, n - 1);
    }
  }

  // ---------------------------------------------------------------- tasks that always move on

  /** No task awaits the same scheduler twice in a row; `at` tells from a frame where the task is
      suspended. */
  ghost predicate MovesOn<F(!new)>(body: Body<F>, at: (nat, F) -> Option<nat>) {
    forall h, f :: at(h, body(h, f).frame) == body(h, f).await && (body(h, f).await.Some? ==> body(h, f).await != at(h, f))
  }

  ghost predicate Tracks<F>(w: World<F>, at: (nat, F) -> Option<nat>) {
    |w.frames| == |w.waitingOn| && forall h :: 0 <= h < |w.frames| ==> w.waitingOn[h] == at(h, w.frames[h])
  }

  /** Then one pass over the list is a whole call of `resume`. */
  function Call<F>(body: Body<F>, w: World<F>, s: nat): World<F> {
    if s < |w.queues| then Turns(body, w, s, |w.queues[s]|) else w
  }

  lemma {:induction false} NoneStay<F(!new)>(body: Body<F>, at: (nat, F) -> Option<nat>, frames: seq<F>, s: nat, q: seq<nat>)
    requires MovesOn(body, at) && AllBelow(q, |frames|) && forall i :: 0 <= i < |q| ==> at(q[i], frames[q[i]]) == Some(s)
    ensures Staying(body, frames, s, q) == []
  {
    if q != [] {
      NoneStay(body, at, frames, s, q[1..]);
    }
  }

  lemma {:induction false} StayingIn<F>(body: Body<F>, frames: seq<F>, t: nat, q: seq<nat>)
    requires AllBelow(q, |frames|)
    ensures forall x :: x in Staying(body, frames, t, q) ==> x in q && x < |frames| && body(x, frames[x]).await == Some(t)
  {
    if q != [] {
      assert q[0] in q;
      StayingIn(body, frames, t, q[1..]);
    }
  }

  lemma {:induction false} StayingDistinct<F>(body: Body<F>, frames: seq<F>, t: nat, q: seq<nat>)
    requires AllBelow(q, |frames|) && Distinct(q)
    ensures Distinct(Staying(body, frames, t, q))
  {
    if q != [] {
      hide Distinct;
      var r := Staying(body, frames, t, q[1..]);
      DistinctTail(q);
      StayingDistinct(body, frames, t, q[1..]);
      if body(q[0], frames[q[0]]).await == Some(t) {
        StayingIn(body, frames, t, q[1..]);
        DistinctCons(q[0], r);
      } else {
        assert [] + r == r;
      }
    }
  }

  lemma ConcatDistinct<T>(a: seq<T>, b: seq<T>)
    requires Distinct(a) && Distinct(b) && forall x :: x in a ==> x !in b
    ensures Distinct(a + b)
  {
    forall i, j | 0 <= i < j < |a + b| ensures Differ(a + b, i, j) {
      if j < |a| { assert Differ(a, i, j); }
      else if i >= |a| { assert Differ(b, i - |a|, j - |a|); }
      else { assert a[i] in a && b[j - |a|] in b; }
    }
  }

  /** There is room in a list for all that a pass over another sends there. */
  lemma PassFits<F(!new)>(body: Body<F>, uses: Uses, w: World<F>, s: nat, t: nat)
    requires Good(uses, w) && Respects(body, uses, |w.queues|) && s < |w.queues| && t < |w.queues| && s != t
    ensures AllBelow(w.queues[s], |w.frames|)
    ensures |w.queues[t]| + |Staying(body, w.frames, t, w.queues[s])| <= w.caps[t]
  {
    GoodQueueIs(uses, w, s);
    GoodQueueIs(uses, w, t);
    var q, r := w.queues[t], Staying(body, w.frames, t, w.queues[s]);
    StayingIn(body, w.frames, t, w.queues[s]);
    StayingDistinct(body, w.frames, t, w.queues[s]);
    forall x | x in q ensures x < |w.frames| && uses(x, t) && x !in r {
      assert QueueOk(w, t) && TaskPlaced(uses, w, x);
      if x in r { OneList(uses, w, x, s); }
    }
    forall x | x in r ensures x < |w.frames| && uses(x, t) {
      assert body(x, w.frames[x]).await == Some(t);
    }
    ConcatDistinct<nat>(q, r);
    DistinctCard<nat>(q + r);
    CardMonotone<nat>((set x: nat | x in q + r), Users(uses, |w.frames|, t));
  }

  /** A call sends each of its tasks on to the list it awaits next, behind those already there and in
      the order in which they were waiting. */
  lemma CallSends<F(!new)>(body: Body<F>, uses: Uses, w: World<F>, s: nat, t: nat)
    requires Good(uses, w) && Respects(body, uses, |w.queues|) && Quiet(body)
    requires s < |w.queues| && t < |w.queues| && s != t
    ensures AllBelow(w.queues[s], |w.frames|) && SameSize(w, Call(body, w, s))
    ensures Call(body, w, s).queues[t] == w.queues[t] + Staying(body, w.frames, t, w.queues[s])
  {
    hide Good, Respects, Quiet;
    GoodQueueIs(uses, w, s);
    assert w.queues[s] + [] == w.queues[s];
    PassSends(body, w, s, w.queues[s], [], t);
    PassFits(body, uses, w, s, t);
  }

  /** A call empties the list, resumes each of its tasks once, in order, and touches no other task. */
  lemma CallResumesEachOnce<F(!new)>(body: Body<F>, at: (nat, F) -> Option<nat>, uses: Uses, w: World<F>, s: nat)
    requires Good(uses, w) && Respects(body, uses, |w.queues|) && Quiet(body) && MovesOn(body, at) && Tracks(w, at)
    requires s < |w.queues|
    ensures var w', q := Call(body, w, s), w.queues[s];
            && Good(uses, w') && Tracks(w', at) && |w'.queues| == |w.queues| && |w'.frames| == |w.frames|
            && w'.queues[s] == [] && Ran(body, w, w', q) && w'.log == w.log + Tag(q, s)
  {
    var q := w.queues[s];
    GoodQueueIs(uses, w, s);
    assert q + [] == q;
    OnePass(body, w, s, q, []);
    forall i | 0 <= i < |q| ensures at(q[i], w.frames[q[i]]) == Some(s) {
      assert q[i] in q;
      OneList(uses, w, q[i], s);
    }
    NoneStay(body, at, w.frames, s, q);
    TurnsKeepGood(body, uses, w, s, |q|);
    var w' := Call(body, w, s);
    forall h | 0 <= h < |w'.frames| ensures w'.waitingOn[h] == at(h, w'.frames[h]) {
      assert h in q || h !in q;
    }
  }
}
