/** The class `scheduler_unordered` (include/coro/scheduler.hpp:301-345), several of them over pooled
    lists, together with the coroutines that a `resume` runs and that insert into them again. */
module CoroutineRuntime {
  import opened Sequences
  import opened WakeOrder
  import opened StaticLists
  import opened Coroutines
  import opened Draining

  lemma TailBelow(q: seq<nat>, n: nat)
    requires q != [] && AllBelow(q, n)
    ensures q[0] < n && AllBelow(q[1..], n) && RemoveAt(q, 0) == q[1..]
  {
  }

  class Runtime<F(!new)> {
    const body: Body<F>
    const lists: seq<StaticList<nat>>   // `waiting_` of each scheduler
    var frames: seq<F>
    var waitingOn: seq<Option<nat>>
    ghost var queues: seq<seq<nat>>     // the contents of the lists
    ghost var log: seq<Resumption>
    ghost var dropped: nat

    ghost function Nexts(): set<array<int>> { set i | 0 <= i < |lists| :: lists[i].next }
    ghost function Prevs(): set<array<int>> { set i | 0 <= i < |lists| :: lists[i].prev }
    ghost function Values(): set<array<nat>> { set i | 0 <= i < |lists| :: lists[i].value }

    ghost predicate Separate(i: nat, j: nat)
      requires i < |lists| && j < |lists|
    {
      lists[i].Repr() !! lists[j].Repr()
    }

    ghost predicate ListOk(i: nat)
      requires i < |lists| == |queues|
      reads this, lists[i], lists[i].next, lists[i].prev, lists[i].value
    {
      lists[i].Valid() && lists[i].Contents() == queues[i] && AllBelow(queues[i], |frames|)
    }

    ghost predicate Valid()
      reads this, lists, Nexts(), Prevs(), Values()
    {
      && |frames| == |waitingOn| && |lists| == |queues|
      && (forall i, j :: 0 <= i < |lists| && 0 <= j < |lists| && i != j ==> Separate(i, j))
      && forall i :: 0 <= i < |lists| ==> ListOk(i)
    }

    ghost function Model(): World<F>
      reads this
    {
      World(seq(|lists|, i requires 0 <= i < |lists| => lists[i].capacity), queues, frames, waitingOn, log, dropped)
    }

    /** On empty schedulers, before any task has been started. */
    constructor (body: Body<F>, lists: seq<StaticList<nat>>, frames: seq<F>)
      requires forall i :: 0 <= i < |lists| ==> lists[i].Valid() && lists[i].Contents() == []
      requires forall i, j {:trigger lists[i], lists[j]} ::
                 0 <= i < |lists| && 0 <= j < |lists| && i != j ==> lists[i].Repr() !! lists[j].Repr()
      ensures Valid() && this.body == body && this.lists == lists
      ensures Model().queues == seq(|lists|, _ => []) && this.frames == frames && log == [] && dropped == 0
      ensures waitingOn == seq(|frames|, _ => None)
    {
      this.body, this.lists, this.frames := body, lists, frames;
      waitingOn, queues, log, dropped := seq(|frames|, _ => None), seq(|lists|, _ => []), [], 0;
    }

    /** `insert` */
    method Insert(s: nat, h: nat)
      requires Valid() && s < |lists| && h < |frames|
      modifies this`dropped, this`queues, lists[s].Repr()
      ensures Valid() && Model() == Coroutines.Push(old(Model()), s, h)
    {
      hide Pool, At, StaticLists.Store;
      assert ListOk(s);
      var list := lists[s];
      ghost var q, full := queues[s], |queues[s]| >= list.capacity;
      list.EmplaceBack(h);
      if full {
        dropped := dropped + 1;
      } else {
        queues := queues[s := q + [h]];
      }
      forall i | 0 <= i < |lists| ensures ListOk(i) {
        if i != s {
          assert Separate(i, s) && old(ListOk(i));
        }
      }
    }

    /** `await_suspend`: a coroutine has reached an await. */
    method Launch(st: Start<F>)
      requires Valid()
      modifies this, lists, Nexts(), Prevs(), Values()
      ensures Valid() && Model() == Coroutines.Launch(old(Model()), st)
    {
      if st.task < |frames| {
        frames := frames[st.task := st.frame];
        waitingOn := waitingOn[st.task := Some(st.sched)];
        forall i | 0 <= i < |lists| ensures ListOk(i) { assert old(ListOk(i)); }
        if st.sched < |lists| {
          Insert(st.sched, st.task);
        }
      }
    }

    method LaunchEach(sts: seq<Start<F>>)
      requires Valid()
      modifies this, lists, Nexts(), Prevs(), Values()
      ensures Valid() && Model() == LaunchAll(old(Model()), sts)
    {
      hide Coroutines.Launch, Pool, At;
      for i := 0 to |sts|
        invariant Valid() && LaunchAll(Model(), sts[i..]) == LaunchAll(old(Model()), sts)
      {
        assert sts[i..][1..] == sts[i + 1..];
        Launch(sts[i]);
      }
    }

    /** `*waiting_.begin()` and `pop_front()` */
    method Take(s: nat) returns (h: nat)
      requires Valid() && s < |lists| && queues[s] != []
      modifies this`queues, lists[s].Repr()
      ensures Valid() && h == old(queues)[s][0] < |frames|
      ensures queues == old(queues)[s := old(queues)[s][1..]]
    {
      hide Pool, At, AllBelow, RemoveAt;
      assert ListOk(s);
      var list := lists[s];
      ghost var q := queues[s];
      TailBelow(q, |frames|);
      h := list.Front();
      list.PopFront();
      queues := queues[s := q[1..]];
      assert list.Valid() && list.Contents() == q[1..];
      forall i | 0 <= i < |lists| ensures ListOk(i) {
        if i != s {
          assert Separate(i, s) && old(ListOk(i));
        }
      }
    }

    /** `handle.resume()`: the coroutine runs to its next await, the coroutines it starts to theirs, and
        each of them may be inserted into any list. */
    method RunTask(s: nat, h: nat)
      requires Valid() && s < |lists| && h < |frames|
      modifies this, lists, Nexts(), Prevs(), Values()
      ensures Valid() && Model() == Coroutines.Resume(body, old(Model()), s, h)
      ensures log == old(log) + [Resumption(h, s)]
      ensures var nx := body(h, old(frames)[h]);
              forall t :: 0 <= t < |lists| ==>
                queues[t] == Fill(old(queues)[t], SentTo(nx.starts, t, |old(frames)|) + (if nx.await == Some(t) then [h] else []),
                                  lists[t].capacity)
    {
      hide Pool, At, Coroutines.Launch, Fill, SentTo, LaunchAll;
      ghost var w := Model();
      var nx := body(h, frames[h]);
      frames := frames[h := nx.frame];
      waitingOn := waitingOn[h := None];
      log := log + [Resumption(h, s)];
      forall i | 0 <= i < |lists| ensures ListOk(i) { assert old(ListOk(i)); }
      LaunchEach(Inserts(h, nx));
      ResumeEffect(body, w, s, h, s);
      forall t | 0 <= t < |lists|
        ensures queues[t] == Fill(w.queues[t], SentTo(nx.starts, t, |w.frames|) + (if nx.await == Some(t) then [h] else []),
                                  lists[t].capacity)
      {
        ResumeEffect(body, w, s, h, t);
      }
    }

    /** One turn of the loop of `resume`. */
    method OneTurn(s: nat)
      requires Valid() && s < |lists| && queues[s] != []
      modifies this, lists, Nexts(), Prevs(), Values()
      ensures Valid() && Model() == Turn(body, old(Model()), s)
    {
      hide Pool, At, Fill, SentTo, LaunchAll, Inserts, Coroutines.Resume;
      var h := Take(s);
      RunTask(s, h);
    }

    /** `resume`, for a list that the loop empties at all (see `Draining.ReturnsIff`). */
    method Resume(s: nat, ghost n: nat)
      requires Valid() && s < |lists| && Drained(body, Model(), s, n)
      modifies this, lists, Nexts(), Prevs(), Values()
      ensures Valid() && queues[s] == [] && Model() == Turns(body, old(Model()), s, n)
    {
      ghost var w, k := Model(), 0;
      var empty := IsEmpty(s);
      while !empty
        invariant Valid() && Model() == Turns(body, w, s, k) && k <= n
        invariant empty == (queues[s] == [])
        decreases n - k
      {
        TurnsAdd(body, w, s, k, 1);
        OneTurn(s);
        k := k + 1;
        empty := IsEmpty(s);
      }
      DrainedOnce(body, w, s, n, k);
    }

    method IsEmpty(s: nat) returns (empty: bool)
      requires Valid() && s < |lists|
      ensures empty <==> queues[s] == []
    {
      assert ListOk(s);
      empty := lists[s].IsEmpty();
    }
  }
}
