/** Coroutines on unordered schedulers (include/coro/scheduler.hpp:301-345,
    include/coro/awaitable_unordered.hpp:24-51), as functions on values.

    A coroutine is its frame and a body: resumed in a frame, it may start other coroutines, which run
    at once to their first await, and then it runs to its own next await, in a new frame, suspended
    on some scheduler, or it finishes.  `resume` of a scheduler drains its list. */
module Coroutines {
  import opened Sequences
  import opened WakeOrder

  /** A coroutine reaches an await: it is inserted into the list of the scheduler it awaits. */
  datatype Start<F> = Start(task: nat, frame: F, sched: nat)

  datatype Next<F> = Next(frame: F, starts: seq<Start<F>>, await: Option<nat>)

  type Body<!F> = (nat, F) -> Next<F>

  datatype Resumption = Resumption(task: nat, sched: nat)

  /** Tasks and schedulers are numbered; `waitingOn` is what a task awaited last. */
  datatype World<F> = World(
    caps: seq<nat>,
    queues: seq<seq<nat>>,
    frames: seq<F>,
    waitingOn: seq<Option<nat>>,
    log: seq<Resumption>,
    dropped: nat)

  ghost predicate Shape<F>(w: World<F>) {
    && |w.caps| == |w.queues| && |w.frames| == |w.waitingOn|
    && forall s :: 0 <= s < |w.queues| ==> QueueOk(w, s)
  }

  /** A scheduler's list holds, each once, tasks that await it. */
  ghost predicate QueueOk<F>(w: World<F>, s: nat)
    requires |w.caps| == |w.queues| && |w.frames| == |w.waitingOn| && s < |w.queues|
  {
    && |w.queues[s]| <= w.caps[s]
    && Distinct(w.queues[s])
    && forall h :: h in w.queues[s] ==> h < |w.frames| && w.waitingOn[h] == Some(s)
  }

  /** `insert`: a full list silently drops the handle. */
  function Push<F>(w: World<F>, s: nat, h: nat): World<F>
    requires s < |w.queues| == |w.caps|
  {
    if |w.queues[s]| < w.caps[s] then w.(queues := w.queues[s := w.queues[s] + [h]])
    else w.(dropped := w.dropped + 1)
  }

  /** `await_suspend` */
  function Launch<F>(w: World<F>, st: Start<F>): World<F> {
    if st.task < |w.frames| == |w.waitingOn| && |w.queues| == |w.caps| then
      var w1 := w.(frames := w.frames[st.task := st.frame], waitingOn := w.waitingOn[st.task := Some(st.sched)]);
      if st.sched < |w.queues| then Push(w1, st.sched, st.task) else w1
    else w
  }

  function LaunchAll<F>(w: World<F>, sts: seq<Start<F>>): World<F>
    decreases |sts|
  {
    if sts == [] then w else LaunchAll(Launch(w, sts[0]), sts[1..])
  }

  /** Everything a resumed coroutine inserts: the coroutines it starts and, last, itself. */
  function Inserts<F>(h: nat, nx: Next<F>): seq<Start<F>> {
    nx.starts + if nx.await.Some? then [Start(h, nx.frame, nx.await.value)] else []
  }

  /** Task h, taken from list s, runs. */
  function Running<F>(w: World<F>, s: nat, h: nat, frame: F): World<F>
    requires h < |w.frames| == |w.waitingOn|
  {
    w.(frames := w.frames[h := frame], waitingOn := w.waitingOn[h := None], log := w.log + [Resumption(h, s)])
  }

  /** `handle.resume()`: the coroutine runs up to its next await. */
  function Resume<F>(body: Body<F>, w: World<F>, s: nat, h: nat): World<F>
    requires h < |w.frames| == |w.waitingOn|
  {
    var nx := body(h, w.frames[h]);
    LaunchAll(Running(w, s, h, nx.frame), Inserts(h, nx))
  }

  predicate HasWork<F>(w: World<F>, s: nat) {
    && |w.frames| == |w.waitingOn| && |w.queues| == |w.caps|
    && s < |w.queues| && w.queues[s] != [] && w.queues[s][0] < |w.frames|
  }

  /** One turn of the loop of `scheduler_unordered::resume`. */
  function Turn<F>(body: Body<F>, w: World<F>, s: nat): World<F> {
    if HasWork(w, s) then Resume(body, w.(queues := w.queues[s := w.queues[s][1..]]), s, w.queues[s][0]) else w
  }

  function Turns<F>(body: Body<F>, w: World<F>, s: nat, n: nat): World<F>
    decreases n
  {
    if n == 0 then w else Turns(body, Turn(body, w, s), s, n - 1)
  }

  predicate AllBelow(q: seq<nat>, n: nat) {
    forall i :: 0 <= i < |q| ==> q[i] < n
  }

  /** The handles of a list whose next await is of scheduler s. */
  function Staying<F>(body: Body<F>, frames: seq<F>, s: nat, q: seq<nat>): seq<nat>
    requires AllBelow(q, |frames|)
    ensures AllBelow(Staying(body, frames, s, q), |frames|)
  {
    if q == [] then [] else
      (if body(q[0], frames[q[0]]).await == Some(s) then [q[0]] else []) + Staying(body, frames, s, q[1..])
  }

  function Tag(q: seq<nat>, s: nat): seq<Resumption> {
    seq(|q|, i requires 0 <= i < |q| => Resumption(q[i], s))
  }

  /** What a pass does to the tasks: those of the list have run to their next await. */
  ghost predicate Ran<F>(body: Body<F>, w: World<F>, w': World<F>, q: seq<nat>) {
    && |w'.frames| == |w.frames| == |w.waitingOn| == |w'.waitingOn|
    && (forall h :: 0 <= h < |w.frames| && h in q ==>
          && w'.frames[h] == body(h, w.frames[h]).frame
          && w'.waitingOn[h] == body(h, w.frames[h]).await)
    && (forall h :: 0 <= h < |w.frames| && h !in q ==>
          w'.frames[h] == w.frames[h] && w'.waitingOn[h] == w.waitingOn[h])
  }

  ghost predicate QueueIs<F>(w: World<F>, s: nat, q: seq<nat>) {
    && |w.frames| == |w.waitingOn| && |w.queues| == |w.caps|
    && s < |w.queues| && w.queues[s] == q && |q| <= w.caps[s]
    && Distinct(q) && AllBelow(q, |w.frames|)
  }

  lemma DistinctConcat<T>(a: seq<T>, b: seq<T>)
    requires Distinct(a + b)
    ensures a != [] ==> Distinct(a[1..] + b) && a[0] !in a[1..] + b
  {
    if a != [] {
      DistinctRemove(a + b, 0);
      assert RemoveAt(a + b, 0) == a[1..] + b;
    }
  }

  /** Coroutines that start no others. */
  ghost predicate Quiet<F(!new)>(body: Body<F>) {
    forall h, f :: body(h, f).starts == []
  }

  lemma QuietResume<F(!new)>(body: Body<F>, w: World<F>, s: nat, h: nat)
    requires Quiet(body) && h < |w.frames| == |w.waitingOn|
    ensures var nx := body(h, w.frames[h]);
            Resume(body, w, s, h)
            == if nx.await.Some? then Launch(Running(w, s, h, nx.frame), Start(h, nx.frame, nx.await.value))
               else Running(w, s, h, nx.frame)
  {
    var nx := body(h, w.frames[h]);
    if nx.await.Some? {
      var sts := [Start(h, nx.frame, nx.await.value)];
      assert Inserts(h, nx) == sts && sts[1..] == [];
      assert LaunchAll(Running(w, s, h, nx.frame), sts) == LaunchAll(Launch(Running(w, s, h, nx.frame), sts[0]), []);
    } else {
      assert Inserts(h, nx) == [];
    }
  }

  lemma FirstTurn<F(!new)>(body: Body<F>, w: World<F>, s: nat, todo: seq<nat>, done: seq<nat>)
    requires todo != [] && QueueIs(w, s, todo + done) && Quiet(body)
    ensures (todo + done)[0] == todo[0] < |w.frames|
    ensures var h, w' := todo[0], Turn(body, w, s);
            var stays := body(h, w.frames[h]).await == Some(s);
            && QueueIs(w', s, todo[1..] + (if stays then done + [h] else done))
            && w'.log == w.log + [Resumption(h, s)]
            && Ran(body, w, w', [h])
  {
    hide LaunchAll, Inserts, Resume;
    var h, rest, q := todo[0], todo[1..] + done, todo + done;
    assert q[0] == h && q[1..] == rest;
    QuietResume(body, w.(queues := w.queues[s := w.queues[s][1..]]), s, h);
    DistinctConcat(todo, done);
    DistinctInsert(rest, |rest|, h);
    assert InsertAt(rest, |rest|, h) == rest + [h] == todo[1..] + (done + [h]);
    assert AllBelow(rest, |w.frames|) by { assert forall i :: 0 <= i < |rest| ==> rest[i] == q[i + 1]; }
  }

  lemma {:induction false} StayingSame<F>(body: Body<F>, f1: seq<F>, f2: seq<F>, s: nat, q: seq<nat>)
    requires |f1| == |f2| && AllBelow(q, |f1|) && forall i :: 0 <= i < |q| ==> f1[q[i]] == f2[q[i]]
    ensures Staying(body, f1, s, q) == Staying(body, f2, s, q)
  {
    if q != [] {
      StayingSame(body, f1, f2, s, q[1..]);
    }
  }

  lemma StayingAfter<F>(body: Body<F>, w: World<F>, w1: World<F>, s: nat, h: nat, q: seq<nat>)
    requires Ran(body, w, w1, [h]) && h !in q && AllBelow(q, |w.frames|)
    ensures |w1.frames| == |w.frames| && Staying(body, w1.frames, s, q) == Staying(body, w.frames, s, q)
  {
    forall i | 0 <= i < |q| ensures w1.frames[q[i]] == w.frames[q[i]] { assert q[i] in q; }
    StayingSame(body, w1.frames, w.frames, s, q);
  }

  lemma RanTwice<F>(body: Body<F>, w: World<F>, w1: World<F>, w2: World<F>, todo: seq<nat>)
    requires todo != [] && Ran(body, w, w1, [todo[0]]) && Ran(body, w1, w2, todo[1..]) && todo[0] !in todo[1..]
    ensures Ran(body, w, w2, todo)
  {
    assert todo == [todo[0]] + todo[1..];
  }

  lemma QueueFacts<F>(w: World<F>, s: nat, todo: seq<nat>, done: seq<nat>)
    requires QueueIs(w, s, todo + done)
    ensures AllBelow(todo, |w.frames|)
    ensures todo != [] ==> todo[0] !in todo[1..] && AllBelow(todo[1..], |w.frames|)
  {
    assert forall i :: 0 <= i < |todo| ==> todo[i] == (todo + done)[i];
    DistinctConcat(todo, done);
    if todo != [] {
      assert forall x :: x in todo[1..] ==> x in todo[1..] + done;
    }
  }

  lemma TagCons(log: seq<Resumption>, todo: seq<nat>, s: nat)
    requires todo != []
    ensures log + [Resumption(todo[0], s)] + Tag(todo[1..], s) == log + Tag(todo, s)
  {
    assert Tag(todo, s) == [Resumption(todo[0], s)] + Tag(todo[1..], s);
  }

  lemma StayingCons<F>(body: Body<F>, frames: seq<F>, s: nat, todo: seq<nat>, done: seq<nat>)
    requires todo != [] && AllBelow(todo, |frames|)
    ensures AllBelow(todo[1..], |frames|)
    ensures done + Staying(body, frames, s, todo)
         == (if body(todo[0], frames[todo[0]]).await == Some(s) then done + [todo[0]] else done)
            + Staying(body, frames, s, todo[1..])
  {
  }

  /** One pass over a list: each of its tasks is resumed once, in order, and those that await the same
      scheduler again end up behind it, in order. */
  lemma {:induction false} OnePass<F(!new)>(body: Body<F>, w: World<F>, s: nat, todo: seq<nat>, done: seq<nat>)
    requires QueueIs(w, s, todo + done) && Quiet(body)
    ensures AllBelow(todo, |w.frames|)
    ensures QueueIs(Turns(body, w, s, |todo|), s, done + Staying(body, w.frames, s, todo))
    ensures Turns(body, w, s, |todo|).log == w.log + Tag(todo, s)
    ensures Ran(body, w, Turns(body, w, s, |todo|), todo)
    decreases |todo|
  {
    QueueFacts(w, s, todo, done);
    if todo == [] {
      assert todo + done == done == done + Staying(body, w.frames, s, todo);
    } else {
      hide QueueIs, Ran, Turn, AllBelow, Quiet, Tag, Staying;
      var h, w1, rest := todo[0], Turn(body, w, s), todo[1..];
      FirstTurn(body, w, s, todo, done);
      var done1 := if body(h, w.frames[h]).await == Some(s) then done + [h] else done;
      OnePass(body, w1, s, rest, done1);
      StayingAfter(body, w, w1, s, h, rest);
      StayingCons(body, w.frames, s, todo, done);
      TagCons(w.log, todo, s);
      RanTwice(body, w, w1, Turns(body, w1, s, |rest|), todo);
    }
  }

  // ---------------------------------------------------------------- counting resumptions

  function OfTask(h: nat): Resumption -> bool { (r: Resumption) => r.task == h }

  function OfTaskFrom(h: nat, s: nat): Resumption -> bool { (r: Resumption) => r == Resumption(h, s) }

  /** How often task h was resumed, and how often from scheduler s. */
  function Resumed(log: seq<Resumption>, h: nat): nat { Count(log, OfTask(h)) }

  function CameBack(log: seq<Resumption>, h: nat, s: nat): nat { Count(log, OfTaskFrom(h, s)) }

  /** A pass over a list counts for its tasks only. */
  lemma {:induction false} CountTag(log: seq<Resumption>, q: seq<nat>, s: nat, p: Resumption -> bool, h: nat)
    requires Distinct(q) && forall r :: p(r) ==> r.task == h
    ensures Count(log + Tag(q, s), p) == Count(log, p) + if h in q && p(Resumption(h, s)) then 1 else 0
  {
    if q == [] {
      assert log + Tag(q, s) == log;
    } else {
      var n := |q| - 1;
      DistinctRemove(q, n);
      assert RemoveAt(q, n) == q[..n];
      CountTag(log, q[..n], s, p, h);
      assert log + Tag(q, s) == (log + Tag(q[..n], s)) + [Resumption(q[n], s)];
      CountLast(log + Tag(q[..n], s), Resumption(q[n], s), p);
    }
  }

  // ---------------------------------------------------------------- runs

  /** A step of a run: a turn of the `resume` of list s, or an insertion by the main program, which
      creates a coroutine. */
  datatype Event<F> =
    | Go(s: nat)
    | Put(start: Start<F>)

  function Step<F>(body: Body<F>, w: World<F>, ev: Event<F>): World<F> {
    match ev
    case Go(s) => Turn(body, w, s)
    case Put(st) => Launch(w, st)
  }

  function Drive<F>(body: Body<F>, w: World<F>, evs: seq<Event<F>>): World<F>
    decreases |evs|
  {
    if evs == [] then w else Drive(body, Step(body, w, evs[0]), evs[1..])
  }

  /** The world with the head of list s taken out. */
  function Popped<F>(w: World<F>, s: nat): World<F>
    requires s < |w.queues| && w.queues[s] != []
  {
    w.(queues := w.queues[s := w.queues[s][1..]])
  }

  /** What a step inserts, and the world it inserts into: for a turn, the one in which the task at the
      head of the list has been taken out and is running. */
  function StepStarts<F>(body: Body<F>, w: World<F>, ev: Event<F>): seq<Start<F>> {
    match ev
    case Go(s) => if HasWork(w, s) then Inserts(w.queues[s][0], body(w.queues[s][0], w.frames[w.queues[s][0]])) else []
    case Put(st) => [st]
  }

  function StepBase<F>(body: Body<F>, w: World<F>, ev: Event<F>): World<F> {
    match ev
    case Go(s) =>
      if HasWork(w, s) then
        var h := w.queues[s][0];
        Running(Popped(w, s), s, h, body(h, w.frames[h]).frame)
      else w
    case Put(st) => w
  }

  lemma StepIsLaunches<F>(body: Body<F>, w: World<F>, ev: Event<F>)
    ensures Step(body, w, ev) == LaunchAll(StepBase(body, w, ev), StepStarts(body, w, ev))
  {
    if ev.Put? {
      assert [ev.start][1..] == [];
      assert LaunchAll(w, [ev.start]) == LaunchAll(Launch(w, ev.start), []);
    }
  }

  // ---------------------------------------------------------------- what a turn leaves in the lists

  /** As many of the entries, from the front, as there is room for. */
  function Fitting(adds: seq<nat>, room: int): (r: seq<nat>)
    ensures |adds| <= room ==> r == adds
  {
    if |adds| <= room then adds else if room <= 0 then [] else adds[..room]
  }

  /** Entries put behind a list of limited length; what does not fit is dropped. */
  function Fill(q: seq<nat>, adds: seq<nat>, cap: nat): seq<nat> {
    q + Fitting(adds, cap - |q|)
  }

  /** The tasks below n that reach an await of scheduler t, in order. */
  function SentTo<F>(sts: seq<Start<F>>, t: nat, n: nat): seq<nat>
  {
    if sts == [] then []
    else (if sts[0].sched == t && sts[0].task < n then [sts[0].task] else []) + SentTo(sts[1..], t, n)
  }

  lemma {:induction false} SentToAppend<F>(a: seq<Start<F>>, b: seq<Start<F>>, t: nat, n: nat)
    ensures SentTo(a + b, t, n) == SentTo(a, t, n) + SentTo(b, t, n)
  {
    if a == [] {
      assert a + b == b;
    } else {
      assert (a + b)[1..] == a[1..] + b;
      SentToAppend(a[1..], b, t, n);
    }
  }

  lemma {:induction false} SentToHas<F>(sts: seq<Start<F>>, t: nat, n: nat, i: nat)
    requires i < |sts| && sts[i].sched == t && sts[i].task < n
    ensures sts[i].task in SentTo(sts, t, n)
  {
    if i > 0 {
      SentToHas(sts[1..], t, n, i - 1);
    }
  }

  lemma TakePastFirst<T>(a: seq<T>, b: seq<T>, k: nat)
    requires |a| <= k <= |a| + |b|
    ensures (a + b)[..k] == a + b[..k - |a|]
  {
  }

  lemma TakeOfFirst<T>(a: seq<T>, b: seq<T>, k: nat)
    requires k <= |a|
    ensures (a + b)[..k] == a[..k]
  {
  }

  lemma FillTwice(q: seq<nat>, a: seq<nat>, b: seq<nat>, cap: nat)
    ensures Fill(Fill(q, a, cap), b, cap) == Fill(q, a + b, cap)
  {
    var room := cap - |q|;
    if |a| <= room {
      if |a| + |b| > room { TakePastFirst(a, b, room); }
      assert Fitting(a + b, room) == a + Fitting(b, room - |a|);
      assert (q + a) + Fitting(b, room - |a|) == q + (a + Fitting(b, room - |a|));
    } else if room > 0 {
      TakeOfFirst(a, b, room);
    }
  }

  ghost predicate Sized<F>(w: World<F>) {
    |w.frames| == |w.waitingOn| && |w.queues| == |w.caps|
  }

  ghost predicate SameSizes<F>(w: World<F>, w': World<F>) {
    Sized(w) && Sized(w') && w'.caps == w.caps && |w'.frames| == |w.frames|
  }

  lemma LaunchFills<F>(w: World<F>, st: Start<F>, t: nat)
    requires Sized(w) && t < |w.queues|
    ensures SameSizes(w, Launch(w, st)) && Launch(w, st).log == w.log
    ensures Launch(w, st).queues[t] == Fill(w.queues[t], SentTo([st], t, |w.frames|), w.caps[t])
  {
    assert [st][1..] == [];
    if st.sched == t && st.task < |w.frames| {
      assert SentTo([st], t, |w.frames|) == [st.task];
    } else {
      assert SentTo([st], t, |w.frames|) == [];
    }
  }

  lemma {:induction false} LaunchAllFills<F>(w: World<F>, sts: seq<Start<F>>, t: nat)
    requires Sized(w) && t < |w.queues|
    ensures SameSizes(w, LaunchAll(w, sts)) && LaunchAll(w, sts).log == w.log
    ensures LaunchAll(w, sts).queues[t] == Fill(w.queues[t], SentTo(sts, t, |w.frames|), w.caps[t])
    decreases |sts|
  {
    hide Launch, Fill, SentTo;
    if sts == [] {
      NoneSent<F>(w.queues[t], t, |w.frames|, w.caps[t]);
    } else {
      LaunchFills(w, sts[0], t);
      LaunchAllFills(Launch(w, sts[0]), sts[1..], t);
      FillTwice(w.queues[t], SentTo([sts[0]], t, |w.frames|), SentTo(sts[1..], t, |w.frames|), w.caps[t]);
      SentToAppend([sts[0]], sts[1..], t, |w.frames|);
      assert [sts[0]] + sts[1..] == sts;
    }
  }

  lemma NoneSent<F>(q: seq<nat>, t: nat, n: nat, cap: nat)
    ensures Fill(q, SentTo<F>([], t, n), cap) == q
  {
  }

  lemma InsertsAreSent<F>(h: nat, nx: Next<F>, t: nat, n: nat)
    requires h < n
    ensures SentTo(Inserts(h, nx), t, n) == SentTo(nx.starts, t, n) + if nx.await == Some(t) then [h] else []
  {
    if nx.await.Some? {
      var own := Start(h, nx.frame, nx.await.value);
      SentToAppend(nx.starts, [own], t, n);
      assert [own][1..] == [];
    } else {
      assert Inserts(h, nx) == nx.starts;
    }
  }

  /** A resumed coroutine leaves every list t as it was, followed by the coroutines started that await
      t, in order, and by itself if it awaits t, as far as there is room. */
  lemma ResumeEffect<F>(body: Body<F>, w: World<F>, s: nat, h: nat, t: nat)
    requires Sized(w) && h < |w.frames| && t < |w.queues|
    ensures var nx, w' := body(h, w.frames[h]), Resume(body, w, s, h);
            && SameSizes(w, w') && w'.log == w.log + [Resumption(h, s)]
            && w'.queues[t] == Fill(w.queues[t], SentTo(nx.starts, t, |w.frames|) + (if nx.await == Some(t) then [h] else []), w.caps[t])
  {
    hide Fill, SentTo, LaunchAll, Inserts;
    var nx := body(h, w.frames[h]);
    InsertsAreSent(h, nx, t, |w.frames|);
    LaunchAllFills(Running(w, s, h, nx.frame), Inserts(h, nx), t);
  }

  /** A turn does so to the head of its list, which it takes out first. */
  lemma TurnEffect<F>(body: Body<F>, w: World<F>, s: nat, t: nat)
    requires HasWork(w, s) && t < |w.queues|
    ensures var h, w' := w.queues[s][0], Turn(body, w, s);
            var nx := body(h, w.frames[h]);
            && SameSizes(w, w') && w'.log == w.log + [Resumption(h, s)]
            && w'.queues[t] == Fill(if t == s then w.queues[t][1..] else w.queues[t],
                                    SentTo(nx.starts, t, |w.frames|) + (if nx.await == Some(t) then [h] else []), w.caps[t])
  {
    hide Fill, SentTo, Resume;
    ResumeEffect(body, Popped(w, s), s, w.queues[s][0], t);
  }

  /** So every coroutine started is in the list it awaits when there is room, and so is the task
      resumed. */
  lemma StartedAreListed<F>(body: Body<F>, w: World<F>, s: nat, i: nat)
    requires HasWork(w, s)
    requires var nx := body(w.queues[s][0], w.frames[w.queues[s][0]]);
             && i < |nx.starts| && nx.starts[i].task < |w.frames| && nx.starts[i].sched < |w.queues|
             && |w.queues[nx.starts[i].sched]| + |nx.starts| + 1 <= w.caps[nx.starts[i].sched]
    ensures var st, w' := body(w.queues[s][0], w.frames[w.queues[s][0]]).starts[i], Turn(body, w, s);
            st.sched < |w'.queues| && st.task in w'.queues[st.sched]
  {
    hide LaunchAll, Turn;
    var nx := body(w.queues[s][0], w.frames[w.queues[s][0]]);
    TurnEffect(body, w, s, nx.starts[i].sched);
    SentToHas(nx.starts, nx.starts[i].sched, |w.frames|, i);
    SentAtMost(nx.starts, nx.starts[i].sched, |w.frames|);
  }

  lemma {:induction false} SentAtMost<F>(sts: seq<Start<F>>, t: nat, n: nat)
    ensures |SentTo(sts, t, n)| <= |sts|
  {
    if sts != [] {
      SentAtMost(sts[1..], t, n);
    }
  }

  // ---------------------------------------------------------------- what a turn does to the frames

  /** The coroutines started are others, each once. */
  ghost predicate StartsApart<F>(sts: seq<Start<F>>) {
    forall i, j :: 0 <= i < j < |sts| ==> sts[i].task != sts[j].task
  }

  lemma {:induction false} OthersStay<F>(w: World<F>, sts: seq<Start<F>>, x: nat)
    requires Sized(w) && x < |w.frames| && forall i :: 0 <= i < |sts| ==> sts[i].task != x
    ensures var w' := LaunchAll(w, sts);
            && Sized(w') && |w'.frames| == |w.frames|
            && w'.frames[x] == w.frames[x] && w'.waitingOn[x] == w.waitingOn[x]
    decreases |sts|
  {
    if sts != [] {
      assert sts[0].task != x;
      OthersStay(Launch(w, sts[0]), sts[1..], x);
    }
  }

  lemma {:induction false} StartedRun<F>(w: World<F>, sts: seq<Start<F>>, i: nat)
    requires Sized(w) && StartsApart(sts) && i < |sts| && sts[i].task < |w.frames|
    ensures var w', x := LaunchAll(w, sts), sts[i].task;
            && Sized(w') && |w'.frames| == |w.frames|
            && w'.frames[x] == sts[i].frame && w'.waitingOn[x] == Some(sts[i].sched)
    decreases |sts|
  {
    if i > 0 {
      StartedRun(Launch(w, sts[0]), sts[1..], i - 1);
    } else {
      OthersStay(Launch(w, sts[0]), sts[1..], sts[0].task);
    }
  }

  /** A turn leaves the resumed task and the coroutines it starts where their code says, and the other
      tasks alone. */
  lemma TurnFrames<F>(body: Body<F>, w: World<F>, s: nat)
    requires HasWork(w, s)
    requires var h := w.queues[s][0];
             var sts := body(h, w.frames[h]).starts;
             StartsApart(sts) && forall i :: 0 <= i < |sts| ==> sts[i].task < |w.frames| && sts[i].task != h
    ensures var h, w' := w.queues[s][0], Turn(body, w, s);
            var nx := body(h, w.frames[h]);
            && |w'.frames| == |w'.waitingOn| == |w.frames|
            && w'.frames[h] == nx.frame && w'.waitingOn[h] == nx.await
            && (forall i :: 0 <= i < |nx.starts| ==>
                  && w'.frames[nx.starts[i].task] == nx.starts[i].frame
                  && w'.waitingOn[nx.starts[i].task] == Some(nx.starts[i].sched))
            && (forall x :: 0 <= x < |w.frames| && x != h && (forall i :: 0 <= i < |nx.starts| ==> nx.starts[i].task != x) ==>
                  w'.frames[x] == w.frames[x] && w'.waitingOn[x] == w.waitingOn[x])
  {
    hide LaunchAll;
    var h := w.queues[s][0];
    var nx := body(h, w.frames[h]);
    var base, ins := Running(Popped(w, s), s, h, nx.frame), Inserts(h, nx);
    assert forall i :: 0 <= i < |nx.starts| ==> ins[i] == nx.starts[i];
    assert nx.await.Some? ==> ins[|nx.starts|] == Start(h, nx.frame, nx.await.value);
    if nx.await.Some? {
      StartedRun(base, ins, |nx.starts|);
    } else {
      OthersStay(base, ins, h);
    }
    forall i | 0 <= i < |nx.starts|
      ensures Turn(body, w, s).frames[ins[i].task] == ins[i].frame
           && Turn(body, w, s).waitingOn[ins[i].task] == Some(ins[i].sched)
    {
      StartedRun(base, ins, i);
    }
    forall x | 0 <= x < |w.frames| && x != h && (forall i :: 0 <= i < |nx.starts| ==> nx.starts[i].task != x)
      ensures Turn(body, w, s).frames[x] == w.frames[x] && Turn(body, w, s).waitingOn[x] == w.waitingOn[x]
    {
      OthersStay(base, ins, x);
    }
  }

  // ---------------------------------------------------------------- where a pass sends its tasks

  /** With coroutines that start no others, a pass over list s appends to every other list those of its
      tasks that await that one next, in order. */
  lemma {:induction false} PassSends<F(!new)>(body: Body<F>, w: World<F>, s: nat, todo: seq<nat>, done: seq<nat>, t: nat)
    requires QueueIs(w, s, todo + done) && Quiet(body) && t < |w.queues| && t != s
    ensures AllBelow(todo, |w.frames|) && SameSizes(w, Turns(body, w, s, |todo|))
    ensures Turns(body, w, s, |todo|).queues[t] == Fill(w.queues[t], Staying(body, w.frames, t, todo), w.caps[t])
    decreases |todo|
  {
    QueueFacts(w, s, todo, done);
    if todo == [] {
      assert w.queues[t] + [] == w.queues[t];
    } else {
      hide Ran, Turn, AllBelow, Quiet, Tag, Staying, Fill, Distinct;
      var h, w1, rest := todo[0], Turn(body, w, s), todo[1..];
      var done1 := if body(h, w.frames[h]).await == Some(s) then done + [h] else done;
      FirstTurn(body, w, s, todo, done);
      QuietTurnSends(body, w, s, t);
      PassSends(body, w1, s, rest, done1, t);
      StayingAfter(body, w, w1, t, h, rest);
      StayingCons(body, w.frames, t, todo, []);
      FillTwice(w.queues[t], if body(h, w.frames[h]).await == Some(t) then [h] else [], Staying(body, w.frames, t, rest), w.caps[t]);
      assert [] + Staying(body, w.frames, t, todo) == Staying(body, w.frames, t, todo);
      assert [] + [h] == [h];
    }
  }

  lemma QuietTurnSends<F(!new)>(body: Body<F>, w: World<F>, s: nat, t: nat)
    requires HasWork(w, s) && Quiet(body) && t < |w.queues| && t != s
    ensures var h := w.queues[s][0];
            && SameSizes(w, Turn(body, w, s))
            && Turn(body, w, s).queues[t] == Fill(w.queues[t], if body(h, w.frames[h]).await == Some(t) then [h] else [], w.caps[t])
  {
    hide Fill, Turn;
    TurnEffect(body, w, s, t);
    var h := w.queues[s][0];
    var nx := body(h, w.frames[h]);
    assert nx.starts == [] && SentTo(nx.starts, t, |w.frames|) == [];
    assert [] + (if nx.await == Some(t) then [h] else []) == if nx.await == Some(t) then [h] else [];
  }
}
