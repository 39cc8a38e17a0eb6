/** What one call of `scheduler_unordered::resume` does (include/coro/scheduler.hpp:334-340): when
    it returns at all, and in which order it runs the tasks. */
module Draining {
  import opened Sequences
  import opened WakeOrder
  import opened Coroutines

  /** Resumed k times, the task awaits scheduler s each time but the last. */
  ghost predicate Stays<F>(body: Body<F>, h: nat, f: F, s: nat, k: nat)
    decreases k
  {
    k > 0
    && var nx := body(h, f);
       if k == 1 then nx.await != Some(s) else nx.await == Some(s) && Stays(body, h, nx.frame, s, k - 1)
  }

  /** The handles of q with more than r awaits, in order. */
  function Survivors(q: seq<nat>, ks: nat -> nat, r: nat): seq<nat> {
    if q == [] then [] else (if ks(q[0]) > r then [q[0]] else []) + Survivors(q[1..], ks, r)
  }

  /** Rounds r to m - 1: in each, the tasks with awaits left, in the original order. */
  function Rounds(q: seq<nat>, ks: nat -> nat, r: nat, m: nat): seq<nat>
    decreases m - r
  {
    if r >= m then [] else Survivors(q, ks, r) + Rounds(q, ks, r + 1, m)
  }

  ghost predicate Counts<F>(body: Body<F>, w: World<F>, s: nat, q: seq<nat>, ks: nat -> nat, r: nat) {
    && AllBelow(q, |w.frames|)
    && forall h :: h in q ==> ks(h) > r && Stays(body, h, w.frames[h], s, ks(h) - r)
  }

  lemma {:induction false} SurvivorsIn(q: seq<nat>, ks: nat -> nat, r: nat)
    ensures forall h :: h in Survivors(q, ks, r) <==> h in q && ks(h) > r
  {
    if q != [] {
      SurvivorsIn(q[1..], ks, r);
      assert q == [q[0]] + q[1..];
    }
  }

  lemma SurvivorsCons(h: nat, q: seq<nat>, ks: nat -> nat, r: nat)
    ensures Survivors([h] + q, ks, r) == (if ks(h) > r then [h] else []) + Survivors(q, ks, r)
  {
    assert ([h] + q)[1..] == q;
  }

  lemma {:induction false} SurvivorsNested(q: seq<nat>, ks: nat -> nat, r: nat)
    ensures Survivors(Survivors(q, ks, r), ks, r + 1) == Survivors(q, ks, r + 1)
  {
    if q != [] {
      SurvivorsNested(q[1..], ks, r);
      var rest := Survivors(q[1..], ks, r);
      if ks(q[0]) > r {
        SurvivorsCons(q[0], rest, ks, r + 1);
      } else {
        assert [] + rest == rest;
      }
    }
  }

  lemma {:induction false} StayingIsSurvivors<F>(body: Body<F>, frames: seq<F>, s: nat, q: seq<nat>, ks: nat -> nat, r: nat)
    requires AllBelow(q, |frames|)
    requires forall h :: h in q ==> ks(h) > r && Stays(body, h, frames[h], s, ks(h) - r)
    ensures Staying(body, frames, s, q) == Survivors(q, ks, r + 1)
  {
    if q != [] {
      assert q[0] in q;
      StayingIsSurvivors(body, frames, s, q[1..], ks, r);
    }
  }

  lemma CountsNext<F>(body: Body<F>, w: World<F>, w': World<F>, s: nat, now: seq<nat>, next: seq<nat>, ks: nat -> nat, r: nat)
    requires Counts(body, w, s, now, ks, r) && Ran(body, w, w', now)
    requires forall h :: h in next ==> h in now && ks(h) > r + 1
    ensures Counts(body, w', s, next, ks, r + 1)
  {
    forall h | h in now ensures h < |w.frames| {
      var i :| 0 <= i < |now| && now[i] == h;
    }
    forall h | h in next ensures ks(h) > r + 1 && Stays(body, h, w'.frames[h], s, ks(h) - (r + 1)) {
      assert h in now;
    }
    assert forall i :: 0 <= i < |next| ==> next[i] in now;
  }

  /** One round resumes exactly the survivors and leaves exactly those of the next round. */
  lemma OneRound<F(!new)>(body: Body<F>, w: World<F>, s: nat, q: seq<nat>, ks: nat -> nat, r: nat)
    requires QueueIs(w, s, Survivors(q, ks, r)) && Counts(body, w, s, Survivors(q, ks, r), ks, r) && Quiet(body)
    ensures var w' := Turns(body, w, s, |Survivors(q, ks, r)|);
            && QueueIs(w', s, Survivors(q, ks, r + 1)) && Counts(body, w', s, Survivors(q, ks, r + 1), ks, r + 1)
            && w'.log == w.log + Tag(Survivors(q, ks, r), s)
  {
    hide Turns, QueueIs, Stays, Ran, Survivors, Quiet;
    var now, next := Survivors(q, ks, r), Survivors(q, ks, r + 1);
    assert now + [] == now && [] + next == next;
    OnePass(body, w, s, now, []);
    StayingIsSurvivors(body, w.frames, s, now, ks, r);
    SurvivorsNested(q, ks, r);
    SurvivorsIn(now, ks, r + 1);
    CountsNext(body, w, Turns(body, w, s, |now|), s, now, next, ks, r);
  }

  lemma {:induction false} TurnsAdd<F>(body: Body<F>, w: World<F>, s: nat, a: nat, b: nat)
    ensures Turns(body, w, s, a + b) == Turns(body, Turns(body, w, s, a), s, b)
    decreases a
  {
    if a > 0 {
      TurnsAdd(body, Turn(body, w, s), s, a - 1, b);
    }
  }

  lemma NoSurvivors(q: seq<nat>, ks: nat -> nat, r: nat)
    requires forall h :: h in q ==> ks(h) <= r
    ensures Survivors(q, ks, r) == []
  {
    SurvivorsIn(q, ks, r);
    if Survivors(q, ks, r) != [] {
      assert Survivors(q, ks, r)[0] in Survivors(q, ks, r);
    }
  }

  lemma TagAppend(log: seq<Resumption>, a: seq<nat>, b: seq<nat>, s: nat)
    ensures log + Tag(a, s) + Tag(b, s) == log + Tag(a + b, s)
  {
    assert Tag(a, s) + Tag(b, s) == Tag(a + b, s);
  }

  lemma RoundsFrom<F(!new)>(body: Body<F>, w: World<F>, s: nat, q: seq<nat>, ks: nat -> nat, r: nat, m: nat) returns (n: nat)
    requires QueueIs(w, s, Survivors(q, ks, r)) && Counts(body, w, s, Survivors(q, ks, r), ks, r) && Quiet(body)
    requires forall h :: h in q ==> ks(h) <= m
    ensures QueueIs(Turns(body, w, s, n), s, [])
    ensures Turns(body, w, s, n).log == w.log + Tag(Rounds(q, ks, r, m), s)
    decreases m - r
  {
    hide QueueIs, Counts, Survivors, Turns, Quiet;
    if r >= m {
      NoSurvivors(q, ks, r);
      n := 0;
      TurnsNone(body, w, s);
    } else {
      var now := Survivors(q, ks, r);
      OneRound(body, w, s, q, ks, r);
      var n1 := RoundsFrom(body, Turns(body, w, s, |now|), s, q, ks, r + 1, m);
      TurnsAdd(body, w, s, |now|, n1);
      TagAppend(w.log, now, Rounds(q, ks, r + 1, m), s);
      n := |now| + n1;
    }
  }

  lemma TurnsNone<F>(body: Body<F>, w: World<F>, s: nat)
    ensures Turns(body, w, s, 0) == w
  {
  }

  /** `resume` over tasks that await its scheduler ks(h) times in a row returns, leaves the list empty
      and runs them round robin: in round r the tasks with ks(h) > r, in the original order. */
  lemma RoundRobin<F(!new)>(body: Body<F>, w: World<F>, s: nat, ks: nat -> nat, m: nat) returns (n: nat)
    requires s < |w.queues| && QueueIs(w, s, w.queues[s]) && Quiet(body)
    requires forall h :: h in w.queues[s] ==> h < |w.frames| && Stays(body, h, w.frames[h], s, ks(h)) && ks(h) <= m
    ensures QueueIs(Turns(body, w, s, n), s, [])
    ensures Turns(body, w, s, n).log == w.log + Tag(Rounds(w.queues[s], ks, 0, m), s)
  {
    var q := w.queues[s];
    AllSurvive(q, ks);
    n := RoundsFrom(body, w, s, q, ks, 0, m);
  }

  lemma {:induction false} AllSurvive(q: seq<nat>, ks: nat -> nat)
    requires forall h :: h in q ==> ks(h) > 0
    ensures Survivors(q, ks, 0) == q
  {
    if q != [] {
      assert q[0] in q;
      AllSurvive(q[1..], ks);
    }
  }

  // ---------------------------------------------------------------- when `resume` returns

  ghost predicate Leaves<F>(body: Body<F>, h: nat, f: F, s: nat) {
    exists k :: Stays(body, h, f, s, k)
  }

  ghost function StayOf<F>(body: Body<F>, h: nat, f: F, s: nat): (k: nat)
    requires Leaves(body, h, f, s)
    ensures Stays(body, h, f, s, k)
  {
    var k :| Stays(body, h, f, s, k); k
  }

  function Max(q: seq<nat>, ks: nat -> nat): (m: nat)
    ensures forall i :: 0 <= i < |q| ==> ks(q[i]) <= m
  {
    if q == [] then 0 else
      var m := Max(q[1..], ks);
      if ks(q[0]) > m then ks(q[0]) else m
  }

  /** The loop has emptied the list after n turns. */
  ghost predicate Drained<F>(body: Body<F>, w: World<F>, s: nat, n: nat) {
    var w' := Turns(body, w, s, n);
    s < |w'.queues| && w'.queues[s] == []
  }

  lemma {:induction false} DrainNeedsLeaving<F(!new)>(body: Body<F>, w: World<F>, s: nat, n: nat)
    requires s < |w.queues| && QueueIs(w, s, w.queues[s]) && Quiet(body) && Drained(body, w, s, n)
    ensures forall h :: h in w.queues[s] ==> h < |w.frames| && Leaves(body, h, w.frames[h], s)
    decreases n
  {
    var q := w.queues[s];
    if q != [] {
      var h, w1 := q[0], Turn(body, w, s);
      assert q + [] == q;
      FirstTurn(body, w, s, q, []);
      DrainNeedsLeaving(body, w1, s, n - 1);
      forall x | x in q ensures x < |w.frames| && Leaves(body, x, w.frames[x], s) {
        OneLeaves(body, w, w1, s, q, x);
      }
    }
  }

  lemma OneLeaves<F>(body: Body<F>, w: World<F>, w1: World<F>, s: nat, q: seq<nat>, x: nat)
    requires q != [] && x in q && AllBelow(q, |w.frames|) && Ran(body, w, w1, [q[0]])
    requires var rest := q[1..] + (if body(q[0], w.frames[q[0]]).await == Some(s) then [q[0]] else []);
             forall h :: h in rest ==> h < |w1.frames| && Leaves(body, h, w1.frames[h], s)
    ensures x < |w.frames| && Leaves(body, x, w.frames[x], s)
  {
    if x == q[0] {
      if body(x, w.frames[x]).await == Some(s) {
        var k := StayOf(body, x, w1.frames[x], s);
        assert Stays(body, x, w.frames[x], s, k + 1);
      } else {
        assert Stays(body, x, w.frames[x], s, 1);
      }
    } else {
      assert q == [q[0]] + q[1..];
    }
  }

  /** `resume` returns exactly when every waiting task at some point awaits something else or
      finishes. */
  lemma ReturnsIff<F(!new)>(body: Body<F>, w: World<F>, s: nat)
    requires s < |w.queues| && QueueIs(w, s, w.queues[s]) && Quiet(body)
    ensures (exists n :: Drained(body, w, s, n))
        <==> (forall h :: h in w.queues[s] ==> h < |w.frames| && Leaves(body, h, w.frames[h], s))
  {
    var q := w.queues[s];
    if n :| Drained(body, w, s, n) {
      DrainNeedsLeaving(body, w, s, n);
    }
    if forall h :: h in q ==> h < |w.frames| && Leaves(body, h, w.frames[h], s) {
      var ks := (h: nat) => if h < |w.frames| && Leaves(body, h, w.frames[h], s) then StayOf(body, h, w.frames[h], s) else 0;
      var n := RoundRobin(body, w, s, ks, Max(q, ks));
      assert Drained(body, w, s, n);
    }
  }

  /** Once the list is empty the loop has stopped: the world it leaves does not depend on n. */
  lemma DrainedOnce<F>(body: Body<F>, w: World<F>, s: nat, n: nat, m: nat)
    requires Drained(body, w, s, n) && Drained(body, w, s, m)
    ensures Turns(body, w, s, n) == Turns(body, w, s, m)
  {
    if n <= m {
      TurnsAdd(body, w, s, n, m - n);
      Stopped(body, Turns(body, w, s, n), s, m - n);
    } else {
      TurnsAdd(body, w, s, m, n - m);
      Stopped(body, Turns(body, w, s, m), s, n - m);
    }
  }

  lemma {:induction false} Stopped<F>(body: Body<F>, w: World<F>, s: nat, n: nat)
    requires s < |w.queues| && w.queues[s] == []
    ensures Turns(body, w, s, n) == w
    decreases n
  {
    if n > 0 {
      Stopped(body, w, s, n - 1);
    }
  }
}
