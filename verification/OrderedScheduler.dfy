/** The class `scheduler_ordered` of include/coro/scheduler.hpp over the pooled list. */
module OrderedSchedulers {
  import opened Sequences
  import opened StaticLists
  import opened WakeOrder

  class OrderedScheduler<C(!new, 0)> {
    const ready: Ready<C>
    const waiting: StaticList<Entry<nat, C>>

    ghost function Repr(): set<object> {
      {this} + waiting.Repr()
    }

    ghost predicate Valid()
      reads Repr()
    {
      waiting.Valid() && WakeRelation(ready) && Sorted(ready, waiting.Contents())
    }

    ghost function Contents(): seq<Entry<nat, C>>
      requires Valid()
      reads Repr()
    {
      waiting.Contents()
    }

    constructor (ready: Ready<C>, maxTasks: nat)
      requires WakeRelation(ready) && 1 <= maxTasks
      ensures Valid() && fresh(Repr()) && Contents() == []
      ensures this.ready == ready && waiting.capacity == maxTasks
    {
      this.ready := ready;
      waiting := new StaticList(maxTasks);
    }

    /** The walk of `insert`: it stops at the first entry the new condition is ready against. */
    method Place(cond: C) returns (i: int, ghost k: nat)
      requires Valid()
      ensures k == InsertPos(ready, Contents(), cond) && waiting.Cursor(i, k)
    {
      hide Pool, At, WakeRelation, Sorted;
      ghost var ws := Contents();
      k := 0;
      i := waiting.Begin();
      while i != NULL
        modifies {}
        invariant k <= |ws| && waiting.Cursor(i, k)
        invariant forall j :: 0 <= j < k ==> !ready(cond, ws[j].cond)
        decreases |ws| - k
      {
        var e := waiting.Read(i, k);
        if ready(cond, e.cond) {
          break;
        }
        i := waiting.Advance(i, k);
        k := k + 1;
      }
      waiting.CursorPosition(i, k);
    }

    method Insert(handle: nat, cond: C)
      requires Valid()
      modifies waiting.Repr()
      ensures Valid()
      ensures Contents() == WakeOrder.Insert(ready, waiting.capacity, old(Contents()), Entry(handle, cond))
    {
      hide Pool, At, Position, WakeRelation, Sorted;
      ghost var k;
      var i;
      i, k := Place(cond);
      waiting.CursorPosition(i, k);
      InsertKeepsSorted(ready, waiting.capacity, Contents(), Entry(handle, cond));
      waiting.Emplace(i, Entry(handle, cond));
    }

    /** What a resumed coroutine does to its scheduler before it suspends again or finishes: a
        finite sequence of insertions, its own next await and those of the tasks it starts. */
    method RunTask(puts: seq<Entry<nat, C>>)
      requires Valid()
      modifies waiting.Repr()
      ensures Valid()
      ensures Contents() == InsertAll(ready, waiting.capacity, old(Contents()), puts)
      ensures multiset(Contents())
           == multiset(old(Contents())) + multiset(puts[..FitCount(waiting.capacity, |old(Contents())|, |puts|)])
    {
      InsertAllAdds(ready, waiting.capacity, Contents(), puts);
      hide Pool, At, WakeRelation, Sorted, WakeOrder.Insert;
      var i := 0;
      while i < |puts|
        invariant i <= |puts| && Valid()
        invariant InsertAll(ready, waiting.capacity, Contents(), puts[i..])
               == InsertAll(ready, waiting.capacity, old(Contents()), puts)
      {
        assert puts[i..][0] == puts[i] && puts[i..][1..] == puts[i + 1..];
        Insert(puts[i].handle, puts[i].cond);
        i := i + 1;
      }
    }

    /** The walk of `resume`: it stops at the first ready entry, keeping track of
        `priority_condition` on the way. */
    method Walk(current: C) returns (i: int, pending: bool, condition: Option<C>, ghost k: nat)
      requires Valid()
      ensures k == FirstReady(ready, Contents(), current) && waiting.Cursor(i, k)
      ensures pending <==> Contents() != []
      ensures condition == Report(ready, Contents()[..k])
    {
      hide Pool, At, WakeRelation, Sorted;
      ghost var ws := Contents();
      pending, condition := false, None;
      k := 0;
      i := waiting.Begin();
      while i != NULL
        modifies {}
        invariant k <= |ws| && waiting.Cursor(i, k) && pending == (k > 0)
        invariant forall j :: 0 <= j < k ==> !ready(ws[j].cond, current)
        invariant condition == Report(ready, ws[..k])
        decreases |ws| - k
      {
        var e := waiting.Read(i, k);
        pending := true;
        if ready(e.cond, current) {
          break;
        }
        assert ws[..k + 1][..k] == ws[..k];
        if condition == None || ready(condition.value, e.cond) {
          condition := Some(e.cond);
        }
        i := waiting.Advance(i, k);
        k := k + 1;
      }
      waiting.CursorPosition(i, k);
    }

    /** Run the head if it is ready, else report the last entry's condition.  The result is
        (true, none) exactly when a task ran, (true, some) exactly when the list was non-empty with
        nothing ready, and (false, none) exactly when it was empty. */
    method Resume(current: C, body: nat -> seq<Entry<nat, C>>)
        returns (pending: bool, condition: Option<C>, ran: Option<nat>)
      requires Valid()
      modifies waiting.Repr()
      ensures Valid()
      ensures var ws := old(Contents());
              && (ws != [] && ready(ws[0].cond, current) ==>
                    && ran == Some(ws[0].handle)
                    && var puts := body(ws[0].handle);
                       && Contents() == InsertAll(ready, waiting.capacity, ws[1..], puts)
                       && multiset(Contents()) == multiset(ws[1..])
                                                + multiset(puts[..FitCount(waiting.capacity, |ws| - 1, |puts|)]))
              && (ws == [] || !ready(ws[0].cond, current) ==> ran == None && Contents() == ws)
      ensures pending <==> old(Contents()) != []
      ensures condition == None <==> ran.Some? || old(Contents()) == []
      ensures condition.Some? ==>
                && condition == Report(ready, old(Contents()))
                && var last := old(Contents())[|old(Contents())| - 1].cond;
                   Before(ready, condition.value, last) && Before(ready, last, condition.value)
    {
      hide Pool, At, Position, WakeRelation, Sorted;
      ghost var ws, k := Contents(), 0;
      OnlyHeadRuns(ready, ws, current);
      var i;
      ran := None;
      i, pending, condition, k := Walk(current);
      waiting.CursorPosition(i, k);
      if i != NULL {
        var e := waiting.Read(i, k);
        TailStaysSorted(ready, ws);
        waiting.Erase(i);
        RunTask(body(e.handle));
        ran := Some(e.handle);
      } else if ws != [] {
        assert ws[..k] == ws;
        ReportTiesLast(ready, ws);
      }
    }
  }
}
