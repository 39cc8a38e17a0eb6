/** Wake conditions and what the ordered scheduler does to its waiting list, as functions on
    sequences (include/coro/scheduler.hpp).

    The scheduler is generic in `ready_to_wake`.  Everything below is proved once, for every
    relation that is transitive and whose complement is transitive; the strict clock comparison and
    the reflexive priority comparison are both of that kind. */
module WakeOrder {
  import opened Sequences

  datatype Option<T> = None | Some(value: T)

  type Ready<!C> = (C, C) -> bool

  datatype Entry<H, C> = Entry(handle: H, cond: C)

  /** `schedule_by_delay::ready_to_wake` on the expiry times. */
  const DELAY: Ready<int> := (waiting: int, current: int) => current > waiting

  /** `schedule_by_priority::ready_to_wake` on the priorities. */
  const PRIORITY: Ready<int> := (waiting: int, current: int) => waiting >= current

  ghost predicate Composes<C>(ready: Ready<C>, a: C, b: C, c: C) {
    && (ready(a, b) && ready(b, c) ==> ready(a, c))
    && (!ready(a, b) && !ready(b, c) ==> !ready(a, c))
  }

  /** Transitive, with a transitive complement. */
  ghost predicate WakeRelation<C(!new)>(ready: Ready<C>) {
    forall a, b, c :: Composes(ready, a, b, c)
  }

  /** a may stand in front of b. */
  predicate Before<C>(ready: Ready<C>, a: C, b: C) {
    ready(a, b) || !ready(b, a)
  }

  ghost predicate Sorted<H, C>(ready: Ready<C>, ws: seq<Entry<H, C>>) {
    forall i, j {:trigger Before(ready, ws[i].cond, ws[j].cond)} :: 0 <= i < j < |ws| ==> Before(ready, ws[i].cond, ws[j].cond)
  }

  /** Where the walk of `insert` stops. */
  function InsertPos<H, C>(ready: Ready<C>, ws: seq<Entry<H, C>>, c: C): (p: nat)
    ensures p <= |ws|
    ensures forall i :: 0 <= i < p ==> !ready(c, ws[i].cond)
    ensures p < |ws| ==> ready(c, ws[p].cond)
  {
    if ws == [] || ready(c, ws[0].cond) then 0 else 1 + InsertPos(ready, ws[1..], c)
  }

  /** `insert`: a full list silently refuses the entry. */
  function Insert<H, C>(ready: Ready<C>, cap: nat, ws: seq<Entry<H, C>>, e: Entry<H, C>): seq<Entry<H, C>> {
    if |ws| < cap then
      InsertAt(ws, InsertPos(ready, ws, e.cond), e)
    else ws
  }

  function InsertAll<H, C>(ready: Ready<C>, cap: nat, ws: seq<Entry<H, C>>, es: seq<Entry<H, C>>): seq<Entry<H, C>>
    decreases |es|
  {
    if es == [] then ws else InsertAll(ready, cap, Insert(ready, cap, ws, es[0]), es[1..])
  }

  /** Where the walk of `resume` finds an entry to run. */
  function FirstReady<H, C>(ready: Ready<C>, ws: seq<Entry<H, C>>, current: C): (p: nat)
    ensures p <= |ws|
    ensures forall i :: 0 <= i < p ==> !ready(ws[i].cond, current)
    ensures p < |ws| ==> ready(ws[p].cond, current)
  {
    if ws == [] || ready(ws[0].cond, current) then 0 else 1 + FirstReady(ready, ws[1..], current)
  }

  /** `priority_condition` after `resume` has walked over `ws` without finding a ready entry. */
  function Report<H, C>(ready: Ready<C>, ws: seq<Entry<H, C>>): Option<C> {
    if ws == [] then None else
    var soFar, c := Report(ready, ws[..|ws| - 1]), ws[|ws| - 1].cond;
    if soFar == None || ready(soFar.value, c) then Some(c) else soFar
  }

  lemma DelayAndPriorityAreWakeRelations()
    ensures WakeRelation(DELAY) && WakeRelation(PRIORITY)
  {
  }

  /** In a sorted list the stopping point splits the list: exactly the entries behind it are ones the
      new condition is ready against.  For a strict relation the new entry goes behind its ties, for
      a reflexive one in front of them. */
  lemma InsertPosSplits<H, C(!new)>(ready: Ready<C>, ws: seq<Entry<H, C>>, c: C)
    requires WakeRelation(ready) && Sorted(ready, ws)
    ensures forall i :: 0 <= i < |ws| ==> (ready(c, ws[i].cond) <==> InsertPos(ready, ws, c) <= i)
  {
    var p := InsertPos(ready, ws, c);
    forall i | p <= i < |ws|
      ensures ready(c, ws[i].cond)
    {
      if i > p {
        assert Before(ready, ws[p].cond, ws[i].cond);
        assert Composes(ready, c, ws[p].cond, ws[i].cond) && Composes(ready, c, ws[i].cond, ws[p].cond);
      }
    }
  }

  lemma SortedAround<H, C>(ready: Ready<C>, ws: seq<Entry<H, C>>, p: nat, e: Entry<H, C>)
    requires Sorted(ready, ws) && p <= |ws|
    requires forall i :: 0 <= i < |ws| ==> (ready(e.cond, ws[i].cond) <==> p <= i)
    ensures Sorted(ready, InsertAt(ws, p, e))
  {
    var ws' := InsertAt(ws, p, e);
    forall i, j | 0 <= i < j < |ws'|
      ensures Before(ready, ws'[i].cond, ws'[j].cond)
    {
      if i == p {
        assert ws'[j] == ws[j - 1];
      } else if j == p {
        assert ws'[i] == ws[i];
      } else {
        assert ws'[i] == ws[if i < p then i else i - 1];
        assert ws'[j] == ws[if j < p then j else j - 1];
      }
    }
  }

  /** `insert` keeps the waiting list sorted and adds exactly one entry when there is room. */
  lemma InsertKeepsSorted<H, C(!new)>(ready: Ready<C>, cap: nat, ws: seq<Entry<H, C>>, e: Entry<H, C>)
    requires WakeRelation(ready) && Sorted(ready, ws)
    ensures Sorted(ready, Insert(ready, cap, ws, e))
    ensures multiset(Insert(ready, cap, ws, e)) == multiset(ws) + if |ws| < cap then multiset{e} else multiset{}
  {
    if |ws| < cap {
      var p := InsertPos(ready, ws, e.cond);
      assert ws == ws[..p] + ws[p..];
      InsertPosSplits(ready, ws, e.cond);
      SortedAround(ready, ws, p, e);
    }
  }

  lemma TailStaysSorted<H, C>(ready: Ready<C>, ws: seq<Entry<H, C>>)
    requires Sorted(ready, ws) && ws != []
    ensures RemoveAt(ws, 0) == ws[1..] && Sorted(ready, ws[1..])
  {
    hide Before;
    var tail := ws[1..];
    forall i, j | 0 <= i < j < |tail| ensures Before(ready, tail[i].cond, tail[j].cond) {
      assert tail[i] == ws[i + 1] && tail[j] == ws[j + 1];
      assert Before(ready, ws[i + 1].cond, ws[j + 1].cond);
    }
  }

  /** On a sorted list only the head can be the first ready entry. */
  lemma OnlyHeadRuns<H, C(!new)>(ready: Ready<C>, ws: seq<Entry<H, C>>, current: C)
    requires WakeRelation(ready) && Sorted(ready, ws)
    ensures FirstReady(ready, ws, current) == if ws != [] && ready(ws[0].cond, current) then 0 else |ws|
  {
    var p := FirstReady(ready, ws, current);
    if p < |ws| {
      assert p == 0 || Before(ready, ws[0].cond, ws[p].cond);
      assert Composes(ready, ws[0].cond, ws[p].cond, current) && Composes(ready, ws[p].cond, ws[0].cond, current);
    }
  }

  /** The reported condition is one of the list's, and a tie of the last one. */
  lemma {:induction false} ReportTiesLast<H, C(!new)>(ready: Ready<C>, ws: seq<Entry<H, C>>)
    requires WakeRelation(ready) && Sorted(ready, ws) && ws != []
    ensures Report(ready, ws).Some?
    ensures exists i :: 0 <= i < |ws| && ws[i].cond == Report(ready, ws).value
    ensures Before(ready, ws[|ws| - 1].cond, Report(ready, ws).value)
    ensures Before(ready, Report(ready, ws).value, ws[|ws| - 1].cond)
  {
    var n := |ws| - 1;
    if n > 0 {
      ReportTiesLast(ready, ws[..n]);
      var i :| 0 <= i < n && ws[..n][i].cond == Report(ready, ws[..n]).value;
      assert Before(ready, ws[i].cond, ws[n].cond);
    } else {
      assert Report(ready, ws[..0]) == None;
    }
  }

  /** So the delay scheduler reports the latest expiry and the priority scheduler the lowest priority. */
  lemma ReportIsLast<H>(ws: seq<Entry<H, int>>)
    requires ws != []
    ensures Sorted(DELAY, ws) ==> Report(DELAY, ws) == Some(ws[|ws| - 1].cond)
    ensures Sorted(PRIORITY, ws) ==> Report(PRIORITY, ws) == Some(ws[|ws| - 1].cond)
  {
    if Sorted(DELAY, ws) {
      ReportTiesLast(DELAY, ws);
    }
    if Sorted(PRIORITY, ws) {
      ReportTiesLast(PRIORITY, ws);
    }
  }

  /** The comment in `resume` speaks of the soonest entry.  The report is the soonest one exactly
      when the whole list is tied. */
  lemma ReportIsSoonestIff<H>(ws: seq<Entry<H, int>>)
    requires ws != [] && Sorted(DELAY, ws)
    ensures Report(DELAY, ws) == Some(ws[0].cond) <==> ws[0].cond == ws[|ws| - 1].cond
  {
    ReportIsLast(ws);
  }

  lemma ReportNotSoonest()
    ensures var ws := [Entry(0, 10), Entry(1, 20)];
            Sorted(DELAY, ws) && Report(DELAY, ws) == Some(20) && FirstReady(DELAY, ws, 20) == 0
  {
    var ws := [Entry(0, 10), Entry(1, 20)];
    ReportIsLast(ws);
  }

  /** The comparison with its arguments exchanged, for which the comment would be true. */
  function SoonestReport<H, C>(ready: Ready<C>, ws: seq<Entry<H, C>>): Option<C> {
    if ws == [] then None else
    var soFar, c := SoonestReport(ready, ws[..|ws| - 1]), ws[|ws| - 1].cond;
    if soFar == None || ready(c, soFar.value) then Some(c) else soFar
  }

  lemma {:induction false} SoonestReportIsHead<H>(ws: seq<Entry<H, int>>)
    requires ws != [] && Sorted(DELAY, ws)
    ensures SoonestReport(DELAY, ws) == Some(ws[0].cond)
  {
    var n := |ws| - 1;
    if n > 0 {
      SoonestReportIsHead(ws[..n]);
      assert Before(DELAY, ws[0].cond, ws[n].cond);
    } else {
      assert SoonestReport(DELAY, ws[..0]) == None;
    }
  }

  /** Any clock past a reported expiry finds every entry that was waiting due. */
  lemma PastReportAllDue<H>(ws: seq<Entry<H, int>>, clock: int)
    requires ws != [] && Sorted(DELAY, ws) && clock > Report(DELAY, ws).value
    ensures forall i :: 0 <= i < |ws| ==> DELAY(ws[i].cond, clock)
  {
    ReportIsLast(ws);
    forall i | 0 <= i < |ws| - 1 ensures DELAY(ws[i].cond, clock) {
      assert Before(DELAY, ws[i].cond, ws[|ws| - 1].cond);
    }
  }

  // ---------------------------------------------------------------- several insertions

  /** How many of m entries a list of n entries still takes. */
  function FitCount(cap: nat, n: nat, m: nat): (k: nat)
    ensures k <= m && (n + m <= cap ==> k == m) && (k < m ==> n + k == cap || (k == 0 && n > cap))
  {
    if n + m <= cap then m else if n >= cap then 0 else cap - n
  }

  /** Inserting entry after entry keeps the list sorted and adds all of them, as far as there is room. */
  lemma {:induction false} InsertAllAdds<H, C(!new)>(ready: Ready<C>, cap: nat, ws: seq<Entry<H, C>>, es: seq<Entry<H, C>>)
    requires WakeRelation(ready) && Sorted(ready, ws)
    ensures var ws' := InsertAll(ready, cap, ws, es);
            && Sorted(ready, ws')
            && multiset(ws') == multiset(ws) + multiset(es[..FitCount(cap, |ws|, |es|)])
            && |ws'| == |ws| + FitCount(cap, |ws|, |es|)
    decreases |es|
  {
    hide WakeRelation, Sorted, Insert;
    if es == [] {
      assert es[..0] == [];
    } else {
      var ws1, k := Insert(ready, cap, ws, es[0]), FitCount(cap, |ws|, |es|);
      InsertKeepsSorted(ready, cap, ws, es[0]);
      InsertLength(ready, cap, ws, es[0]);
      InsertAllAdds(ready, cap, ws1, es[1..]);
      if k > 0 {
        assert es[..k] == [es[0]] + es[1..][..k - 1];
      } else {
        assert es[..0] == [] && es[1..][..0] == [];
      }
    }
  }

  lemma InsertLength<H, C>(ready: Ready<C>, cap: nat, ws: seq<Entry<H, C>>, e: Entry<H, C>)
    ensures |Insert(ready, cap, ws, e)| == if |ws| < cap then |ws| + 1 else |ws|
  {
  }

  /** x stands in front of y. */
  ghost predicate Ahead<T>(s: seq<T>, x: T, y: T) {
    exists i, j :: 0 <= i < j < |s| && s[i] == x && s[j] == y
  }

  lemma AheadAt<T>(s: seq<T>, i: nat, j: nat)
    requires i < j < |s|
    ensures Ahead(s, s[i], s[j])
  {
  }

  lemma InsertAtKeepsAhead<T>(s: seq<T>, k: nat, e: T, x: T, y: T)
    requires k <= |s| && Ahead(s, x, y)
    ensures Ahead(InsertAt(s, k, e), x, y)
  {
    var i, j :| 0 <= i < j < |s| && s[i] == x && s[j] == y;
    AheadAt(InsertAt(s, k, e), if i < k then i else i + 1, if j < k then j else j + 1);
  }

  /** The new entry goes in front of exactly those it is ready against. */
  lemma InsertGoes<H, C(!new)>(ready: Ready<C>, cap: nat, ws: seq<Entry<H, C>>, e: Entry<H, C>, x: Entry<H, C>)
    requires WakeRelation(ready) && Sorted(ready, ws) && |ws| < cap && x in ws
    ensures var ws' := Insert(ready, cap, ws, e);
            x in ws' && if ready(e.cond, x.cond) then Ahead(ws', e, x) else Ahead(ws', x, e)
  {
    InsertPosSplits(ready, ws, e.cond);
    var k, ws' := InsertPos(ready, ws, e.cond), Insert(ready, cap, ws, e);
    var i :| 0 <= i < |ws| && ws[i] == x;
    if i < k {
      AheadAt(ws', i, k);
    } else {
      AheadAt(ws', k, i + 1);
    }
  }

  lemma {:induction false} InsertAllKeepsAhead<H, C>(
      ready: Ready<C>, cap: nat, ws: seq<Entry<H, C>>, es: seq<Entry<H, C>>, x: Entry<H, C>, y: Entry<H, C>)
    requires Ahead(ws, x, y)
    ensures Ahead(InsertAll(ready, cap, ws, es), x, y)
    decreases |es|
  {
    hide Ahead;
    if es != [] {
      if |ws| < cap { InsertAtKeepsAhead(ws, InsertPos(ready, ws, es[0].cond), es[0], x, y); }
      InsertAllKeepsAhead(ready, cap, Insert(ready, cap, ws, es[0]), es[1..], x, y);
    }
  }

  /** An entry inserted goes in front of exactly those already there that it is ready against... */
  lemma {:induction false} LaterGoes<H, C(!new)>(
      ready: Ready<C>, cap: nat, ws: seq<Entry<H, C>>, es: seq<Entry<H, C>>, x: Entry<H, C>, j: nat)
    requires WakeRelation(ready) && Sorted(ready, ws) && x in ws && j < FitCount(cap, |ws|, |es|)
    ensures var ws' := InsertAll(ready, cap, ws, es);
            if ready(es[j].cond, x.cond) then Ahead(ws', es[j], x) else Ahead(ws', x, es[j])
    decreases j
  {
    hide WakeRelation, Sorted, Insert, Ahead;
    var ws1 := Insert(ready, cap, ws, es[0]);
    InsertKeepsSorted(ready, cap, ws, es[0]);
    InsertLength(ready, cap, ws, es[0]);
    InsertGoes(ready, cap, ws, es[0], x);
    if j > 0 {
      LaterGoes(ready, cap, ws1, es[1..], x, j - 1);
    } else if ready(es[0].cond, x.cond) {
      InsertAllKeepsAhead(ready, cap, ws1, es[1..], es[0], x);
    } else {
      InsertAllKeepsAhead(ready, cap, ws1, es[1..], x, es[0]);
    }
  }

  /** ... also among themselves: of two that tie, the earlier stands in front for the strict relation,
      the later for the reflexive one. */
  lemma {:induction false} InsertAllOrder<H, C(!new)>(
      ready: Ready<C>, cap: nat, ws: seq<Entry<H, C>>, es: seq<Entry<H, C>>, i: nat, j: nat)
    requires WakeRelation(ready) && Sorted(ready, ws) && i < j < FitCount(cap, |ws|, |es|)
    ensures var ws' := InsertAll(ready, cap, ws, es);
            if ready(es[j].cond, es[i].cond) then Ahead(ws', es[j], es[i]) else Ahead(ws', es[i], es[j])
    decreases i
  {
    hide WakeRelation, Sorted, Ahead;
    var ws1 := Insert(ready, cap, ws, es[0]);
    InsertKeepsSorted(ready, cap, ws, es[0]);
    InsertLength(ready, cap, ws, es[0]);
    if i > 0 {
      InsertAllOrder(ready, cap, ws1, es[1..], i - 1, j - 1);
    } else {
      assert ws1[InsertPos(ready, ws, es[0].cond)] == es[0];
      LaterGoes(ready, cap, ws1, es[1..], es[0], j - 1);
    }
  }

  /** For the two wake conditions: ties stand in the order of insertion in a delay list, in the reverse
      order in a priority list. */
  lemma InsertAllTies<H>(cap: nat, ws: seq<Entry<H, int>>, es: seq<Entry<H, int>>, i: nat, j: nat)
    requires i < j < FitCount(cap, |ws|, |es|) && es[i].cond == es[j].cond
    ensures Sorted(DELAY, ws) ==> Ahead(InsertAll(DELAY, cap, ws, es), es[i], es[j])
    ensures Sorted(PRIORITY, ws) ==> Ahead(InsertAll(PRIORITY, cap, ws, es), es[j], es[i])
  {
    DelayAndPriorityAreWakeRelations();
    if Sorted(DELAY, ws) { InsertAllOrder(DELAY, cap, ws, es, i, j); }
    if Sorted(PRIORITY, ws) { InsertAllOrder(PRIORITY, cap, ws, es, i, j); }
  }
}
