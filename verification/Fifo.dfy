/** Nothing is lost, doubled or reordered in the lists of unordered schedulers
    (include/coro/scheduler.hpp:326-340), for any coroutines. */
module Fifo {
  import opened Sequences
  import opened WakeOrder
  import opened Coroutines

  /** What a step sends to list t: a turn the coroutines that the resumed one starts and, if it awaits
      t, that one itself. */
  function Sent<F>(body: Body<F>, w: World<F>, ev: Event<F>, t: nat): seq<nat> {
    match ev
    case Put(st) => SentTo([st], t, |w.frames|)
    case Go(s) =>
      if !HasWork(w, s) then [] else
        var h := w.queues[s][0];
        var nx := body(h, w.frames[h]);
        SentTo(nx.starts, t, |w.frames|) + if nx.await == Some(t) then [h] else []
  }

  /** List t without the task that the step resumes, and that task. */
  function Rest<F>(w: World<F>, ev: Event<F>, t: nat): seq<nat>
    requires t < |w.queues|
  {
    if ev == Go(t) && HasWork(w, t) then w.queues[t][1..] else w.queues[t]
  }

  function Resumes<F>(w: World<F>, ev: Event<F>): seq<Resumption> {
    if ev.Go? && HasWork(w, ev.s) then [Resumption(w.queues[ev.s][0], ev.s)] else []
  }

  /** What a run sends to list t and finds room there, in order. */
  function Pushes<F>(body: Body<F>, w: World<F>, evs: seq<Event<F>>, t: nat): seq<nat>
    decreases |evs|
  {
    if evs == [] || t >= |w.queues| || t >= |w.caps| then [] else
      Fitting(Sent(body, w, evs[0], t), w.caps[t] - |Rest(w, evs[0], t)|) + Pushes(body, Step(body, w, evs[0]), evs[1..], t)
  }

  /** The tasks of the records that concern scheduler t, in order. */
  function On(log: seq<Resumption>, t: nat): seq<nat> {
    if log == [] then [] else (if log[0].sched == t then [log[0].task] else []) + On(log[1..], t)
  }

  lemma {:induction false} OnAppend(a: seq<Resumption>, b: seq<Resumption>, t: nat)
    ensures On(a + b, t) == On(a, t) + On(b, t)
  {
    if a == [] {
      assert a + b == b;
    } else {
      assert (a + b)[1..] == a[1..] + b && (a + b)[0] == a[0];
      OnAppend(a[1..], b, t);
      ThreeParts(if a[0].sched == t then [a[0].task] else [], On(a[1..], t), On(b, t));
    }
  }

  lemma ThreeParts<T>(a: seq<T>, b: seq<T>, c: seq<T>)
    ensures a + (b + c) == (a + b) + c
  {
  }

  /** A step in terms of the coroutine's code and the lists before it. */
  lemma StepFills<F>(body: Body<F>, w: World<F>, ev: Event<F>, t: nat)
    requires Sized(w) && t < |w.queues|
    ensures var w' := Step(body, w, ev);
            && SameSizes(w, w') && w'.log == w.log + Resumes(w, ev)
            && w'.queues[t] == Fill(Rest(w, ev, t), Sent(body, w, ev, t), w.caps[t])
  {
    hide Fill, SentTo, Turn, Launch;
    match ev
    case Put(st) => LaunchFills(w, st, t);
    case Go(s) =>
      if HasWork(w, s) {
        TurnEffect(body, w, s, t);
      } else {
        NoWork(body, w, s);
        NoneSent<F>(w.queues[t], t, |w.frames|, w.caps[t]);
        assert SentTo<F>([], t, |w.frames|) == [] by { NothingSent<F>(t, |w.frames|); }
      }
  }

  lemma NoWork<F>(body: Body<F>, w: World<F>, s: nat)
    ensures !HasWork(w, s) ==> Turn(body, w, s) == w
  {
  }

  lemma NothingSent<F>(t: nat, n: nat)
    ensures SentTo<F>([], t, n) == []
  {
  }

  lemma RestIs<F>(w: World<F>, ev: Event<F>, t: nat)
    requires t < |w.queues|
    ensures w.queues[t] == On(Resumes(w, ev), t) + Rest(w, ev, t)
  {
    if ev.Go? && HasWork(w, ev.s) {
      assert Resumes(w, ev)[1..] == [];
    }
  }

  /** Over any run of turns and insertions: what was in a list, followed by what was sent to it and
      found room, is exactly what was resumed from it, followed by what is in it, in the same order. */
  lemma {:induction false} FirstInFirstOut<F>(body: Body<F>, w: World<F>, evs: seq<Event<F>>, t: nat)
    requires Sized(w) && t < |w.queues|
    ensures var w' := Drive(body, w, evs);
            && SameSizes(w, w')
            && w.log <= w'.log
            && w.queues[t] + Pushes(body, w, evs, t) == On(w'.log[|w.log|..], t) + w'.queues[t]
    decreases |evs|
  {
    hide On, Sent, Fitting, Resumes, Rest, Step;
    var w' := Drive(body, w, evs);
    if evs == [] {
      assert w'.log[|w.log|..] == [];
      assert On([], t) == [] by { OnNone(t); }
    } else {
      var w1 := Step(body, w, evs[0]);
      StepFills(body, w, evs[0], t);
      RestIs(w, evs[0], t);
      FirstInFirstOut(body, w1, evs[1..], t);
      LogSuffix(w.log, Resumes(w, evs[0]), w'.log);
      OnAppend(Resumes(w, evs[0]), w'.log[|w1.log|..], t);
      Regroup(w.queues[t], On(Resumes(w, evs[0]), t), Rest(w, evs[0], t),
              Fitting(Sent(body, w, evs[0], t), w.caps[t] - |Rest(w, evs[0], t)|), w1.queues[t],
              Pushes(body, w1, evs[1..], t), On(w'.log[|w1.log|..], t), w'.queues[t]);
    }
  }

  lemma OnNone(t: nat)
    ensures On([], t) == []
  {
  }

  lemma LogSuffix<T>(log: seq<T>, mid: seq<T>, log': seq<T>)
    requires log + mid <= log'
    ensures log <= log' && log'[|log|..] == mid + log'[|log + mid|..]
  {
  }

  lemma Regroup<T>(q: seq<T>, r: seq<T>, b: seq<T>, p: seq<T>, q1: seq<T>, ps: seq<T>, rs: seq<T>, q2: seq<T>)
    requires q == r + b && q1 == b + p && q1 + ps == rs + q2
    ensures q + (p + ps) == (r + rs) + q2
  {
    assert q + (p + ps) == r + (b + p) + ps == r + (q1 + ps) == r + (rs + q2);
  }

  // ---------------------------------------------------------------- the books

  function Total(qs: seq<seq<nat>>): nat {
    if qs == [] then 0 else |qs[0]| + Total(qs[1..])
  }

  lemma {:induction false} TotalUpdate(qs: seq<seq<nat>>, s: nat, q: seq<nat>)
    requires s < |qs|
    ensures Total(qs[s := q]) == Total(qs) - |qs[s]| + |q|
  {
    if s == 0 {
      assert qs[0 := q][1..] == qs[1..];
    } else {
      TotalUpdate(qs[1..], s - 1, q);
      assert qs[s := q][1..] == qs[1..][s - 1 := q];
    }
  }

  /** An await that calls `insert`: of an existing task, on an existing scheduler. */
  predicate Calls(n: nat, m: nat, task: nat, sched: nat) {
    task < n && sched < m
  }

  function CallsInsert<F>(n: nat, m: nat): Start<F> -> bool {
    (st: Start<F>) => Calls(n, m, st.task, st.sched)
  }

  /** The calls of `insert` that a step makes. */
  function Insertions<F>(body: Body<F>, w: World<F>, ev: Event<F>): nat {
    match ev
    case Put(st) => if Calls(|w.frames|, |w.queues|, st.task, st.sched) then 1 else 0
    case Go(s) =>
      if !HasWork(w, s) then 0 else
        var h := w.queues[s][0];
        var nx := body(h, w.frames[h]);
        Count(nx.starts, CallsInsert(|w.frames|, |w.queues|))
        + if nx.await.Some? && nx.await.value < |w.queues| then 1 else 0
  }

  function RunInsertions<F>(body: Body<F>, w: World<F>, evs: seq<Event<F>>): nat
    decreases |evs|
  {
    if evs == [] then 0 else Insertions(body, w, evs[0]) + RunInsertions(body, Step(body, w, evs[0]), evs[1..])
  }

  function Accounted<F>(w: World<F>): nat {
    Total(w.queues) + |w.log| + w.dropped
  }

  lemma LaunchAccounts<F>(w: World<F>, st: Start<F>)
    requires Sized(w)
    ensures Sized(Launch(w, st)) && |Launch(w, st).frames| == |w.frames| && |Launch(w, st).queues| == |w.queues|
    ensures Accounted(Launch(w, st)) == Accounted(w) + if Calls(|w.frames|, |w.queues|, st.task, st.sched) then 1 else 0
  {
    if Calls(|w.frames|, |w.queues|, st.task, st.sched) {
      TotalUpdate(w.queues, st.sched, w.queues[st.sched] + [st.task]);
    }
  }

  lemma {:induction false} LaunchAllAccounts<F>(w: World<F>, sts: seq<Start<F>>)
    requires Sized(w)
    ensures var w' := LaunchAll(w, sts);
            && Sized(w') && |w'.frames| == |w.frames| && |w'.queues| == |w.queues|
            && Accounted(w') == Accounted(w) + Count(sts, CallsInsert(|w.frames|, |w.queues|))
    decreases |sts|
  {
    hide Launch, Accounted, Calls;
    if sts != [] {
      var p := CallsInsert(|w.frames|, |w.queues|);
      LaunchAccounts(w, sts[0]);
      LaunchAllAccounts(Launch(w, sts[0]), sts[1..]);
      CountFirst(sts[0], sts[1..], p);
      assert [sts[0]] + sts[1..] == sts;
    }
  }

  lemma StepAccounts<F>(body: Body<F>, w: World<F>, ev: Event<F>)
    requires Sized(w)
    ensures var w' := Step(body, w, ev);
            && Sized(w') && |w'.frames| == |w.frames| && |w'.queues| == |w.queues|
            && Accounted(w') == Accounted(w) + Insertions(body, w, ev)
  {
    hide LaunchAll, Count, Total;
    match ev
    case Put(st) => LaunchAccounts(w, st);
    case Go(s) =>
      if HasWork(w, s) {
        var h := w.queues[s][0];
        var nx := body(h, w.frames[h]);
        TotalUpdate(w.queues, s, w.queues[s][1..]);
        LaunchAllAccounts(Running(Popped(w, s), s, h, nx.frame), Inserts(h, nx));
        if nx.await.Some? {
          CountLast(nx.starts, Start(h, nx.frame, nx.await.value), CallsInsert<F>(|w.frames|, |w.queues|));
        } else {
          assert Inserts(h, nx) == nx.starts;
        }
      }
  }

  /** Over any run every handle given to an `insert` is waiting, resumed or dropped, and each is counted
      once. */
  lemma {:induction false} AllAccounted<F>(body: Body<F>, w: World<F>, evs: seq<Event<F>>)
    requires Sized(w)
    ensures var w' := Drive(body, w, evs);
            Total(w'.queues) + |w'.log| + w'.dropped
            == Total(w.queues) + |w.log| + w.dropped + RunInsertions(body, w, evs)
    decreases |evs|
  {
    hide Step, Insertions, Total;
    if evs != [] {
      StepAccounts(body, w, evs[0]);
      AllAccounted(body, Step(body, w, evs[0]), evs[1..]);
    }
  }
}
