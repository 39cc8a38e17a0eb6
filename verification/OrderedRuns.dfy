/** Every run of an ordered scheduler, over any wake relation: insertions from the main program,
    and resumptions whose task may insert again before it returns
    (include/coro/scheduler.hpp:213-280).

    Each accepted entry carries its insertion number.  The scheduler does not see it. */
module OrderedRuns {
  import opened Sequences
  import opened WakeOrder

  datatype Stamp = Stamp(task: nat, id: nat)

  type Item<C> = Entry<Stamp, C>

  datatype Put<C> = Put(task: nat, cond: C)

  /** An entry that was resumed, with the condition `resume` was called with. */
  datatype Ran<C> = Ran(item: Item<C>, current: C)

  datatype State<C> = State(
    cap: nat,
    waiting: seq<Item<C>>,
    accepted: seq<Item<C>>,
    log: seq<Ran<C>>,
    refused: nat)

  datatype Event<C> =
    | Main(put: Put<C>)
    | Resume(current: C, puts: seq<Put<C>>)  // what the resumed task inserts, if one is resumed

  function Init<C>(cap: nat): State<C> {
    State(cap, [], [], [], 0)
  }

  function DoPut<C>(ready: Ready<C>, s: State<C>, p: Put<C>): State<C> {
    var e := Entry(Stamp(p.task, |s.accepted|), p.cond);
    if |s.waiting| < s.cap then
      s.(waiting := Insert(ready, s.cap, s.waiting, e), accepted := s.accepted + [e])
    else
      s.(refused := s.refused + 1)
  }

  function DoPuts<C>(ready: Ready<C>, s: State<C>, ps: seq<Put<C>>): State<C>
    decreases |ps|
  {
    if ps == [] then s else DoPuts(ready, DoPut(ready, s, ps[0]), ps[1..])
  }

  /** The first ready entry leaves the list for the log. */
  function Take<C>(ready: Ready<C>, s: State<C>, current: C): State<C> {
    var p := FirstReady(ready, s.waiting, current);
    if p < |s.waiting| then
      s.(waiting := RemoveAt(s.waiting, p), log := s.log + [Ran(s.waiting[p], current)])
    else s
  }

  predicate Runs<C>(ready: Ready<C>, s: State<C>, current: C) {
    FirstReady(ready, s.waiting, current) < |s.waiting|
  }

  function Step<C>(ready: Ready<C>, s: State<C>, ev: Event<C>): State<C> {
    match ev
    case Main(p) => DoPut(ready, s, p)
    case Resume(current, puts) =>
      if Runs(ready, s, current) then DoPuts(ready, Take(ready, s, current), puts) else s
  }

  function Run<C>(ready: Ready<C>, s: State<C>, evs: seq<Event<C>>): State<C> {
    if evs == [] then s
    else Step(ready, Run(ready, s, evs[..|evs| - 1]), evs[|evs| - 1])
  }

  function Items<C>(log: seq<Ran<C>>): seq<Item<C>> {
    seq(|log|, i requires 0 <= i < |log| => log[i].item)
  }

  /** e1 belongs in front of e2: the later of the two insertions goes in front exactly when it is
      ready against the earlier one. */
  predicate Precedes<C>(ready: Ready<C>, e1: Item<C>, e2: Item<C>) {
    && e1.handle.id != e2.handle.id
    && (if e1.handle.id < e2.handle.id then !ready(e2.cond, e1.cond) else ready(e1.cond, e2.cond))
  }

  ghost predicate StampSorted<C>(ready: Ready<C>, ws: seq<Item<C>>) {
    forall i, j {:trigger Precedes(ready, ws[i], ws[j])} :: 0 <= i < j < |ws| ==> Precedes(ready, ws[i], ws[j])
  }

  predicate WasReady<C>(ready: Ready<C>, r: Ran<C>) {
    ready(r.item.cond, r.current)
  }

  ghost predicate Numbered<C>(accepted: seq<Item<C>>) {
    forall i :: 0 <= i < |accepted| ==> accepted[i].handle.id == i
  }

  ghost predicate LogReady<C>(ready: Ready<C>, log: seq<Ran<C>>) {
    forall i {:trigger WasReady(ready, log[i])} :: 0 <= i < |log| ==> WasReady(ready, log[i])
  }

  ghost predicate Inv<C>(ready: Ready<C>, s: State<C>) {
    && |s.waiting| <= s.cap
    && StampSorted(ready, s.waiting)
    && Numbered(s.accepted)
    && LogReady(ready, s.log)
    && multiset(s.accepted) == multiset(s.waiting) + multiset(Items(s.log))
  }

  lemma StampSortedIsSorted<C>(ready: Ready<C>, ws: seq<Item<C>>)
    requires StampSorted(ready, ws)
    ensures Sorted(ready, ws)
  {
    forall i, j | 0 <= i < j < |ws| ensures Before(ready, ws[i].cond, ws[j].cond) {
      assert Precedes(ready, ws[i], ws[j]);
    }
  }

  lemma PutKeepsOrder<C>(ready: Ready<C>, ws: seq<Item<C>>, p: nat, e: Item<C>)
    requires StampSorted(ready, ws) && p <= |ws|
    requires forall i :: 0 <= i < |ws| ==> ws[i].handle.id < e.handle.id
    requires forall i :: 0 <= i < |ws| ==> (ready(e.cond, ws[i].cond) <==> p <= i)
    ensures StampSorted(ready, InsertAt(ws, p, e))
  {
    var ws' := InsertAt(ws, p, e);
    forall i, j | 0 <= i < j < |ws'|
      ensures Precedes(ready, ws'[i], ws'[j])
    {
      if i == p {
        assert ws'[j] == ws[j - 1];
      } else if j == p {
        assert ws'[i] == ws[i];
      } else {
        assert ws'[i] == ws[if i < p then i else i - 1];
        assert ws'[j] == ws[if j < p then j else j - 1];
      }
    }
  }

  lemma PutKeepsSorted<C(!new)>(ready: Ready<C>, ws: seq<Item<C>>, e: Item<C>)
    requires WakeRelation(ready) && StampSorted(ready, ws)
    requires forall i :: 0 <= i < |ws| ==> ws[i].handle.id < e.handle.id
    ensures StampSorted(ready, InsertAt(ws, InsertPos(ready, ws, e.cond), e))
  {
    StampSortedIsSorted(ready, ws);
    InsertPosSplits(ready, ws, e.cond);
    PutKeepsOrder(ready, ws, InsertPos(ready, ws, e.cond), e);
  }

  lemma InsertMultiset<T>(s: seq<T>, k: nat, x: T)
    requires k <= |s|
    ensures multiset(InsertAt(s, k, x)) == multiset(s) + multiset{x}
  {
    assert s == s[..k] + s[k..];
  }

  /** Every waiting entry has a number that was given out. */
  lemma WaitingNumbers<C>(ready: Ready<C>, s: State<C>)
    requires Inv(ready, s)
    ensures forall i :: 0 <= i < |s.waiting| ==> s.waiting[i].handle.id < |s.accepted|
  {
    forall i | 0 <= i < |s.waiting| ensures s.waiting[i].handle.id < |s.accepted| {
      assert s.waiting[i] in multiset(s.waiting);
      assert s.waiting[i] in multiset(s.accepted);
    }
  }

  lemma DoPutKeepsInv<C(!new)>(ready: Ready<C>, s: State<C>, p: Put<C>)
    requires WakeRelation(ready) && Inv(ready, s)
    ensures Inv(ready, DoPut(ready, s, p))
  {
    hide WakeRelation, StampSorted, LogReady;
    var e := Entry(Stamp(p.task, |s.accepted|), p.cond);
    WaitingNumbers(ready, s);
    PutKeepsSorted(ready, s.waiting, e);
    InsertMultiset(s.waiting, InsertPos(ready, s.waiting, e.cond), e);
  }

  lemma {:induction false} DoPutsKeepInv<C(!new)>(ready: Ready<C>, s: State<C>, ps: seq<Put<C>>)
    requires WakeRelation(ready) && Inv(ready, s)
    ensures Inv(ready, DoPuts(ready, s, ps))
    decreases |ps|
  {
    if ps != [] {
      DoPutKeepsInv(ready, s, ps[0]);
      DoPutsKeepInv(ready, DoPut(ready, s, ps[0]), ps[1..]);
    }
  }

  lemma RemovalKeepsOrder<C>(ready: Ready<C>, ws: seq<Item<C>>, p: nat)
    requires StampSorted(ready, ws) && p < |ws|
    ensures StampSorted(ready, RemoveAt(ws, p))
  {
    var ws' := RemoveAt(ws, p);
    forall i, j | 0 <= i < j < |ws'| ensures Precedes(ready, ws'[i], ws'[j]) {
      assert ws'[i] == ws[if i < p then i else i + 1];
      assert ws'[j] == ws[if j < p then j else j + 1];
    }
  }

  lemma RemoveMultiset<T>(s: seq<T>, k: nat)
    requires k < |s|
    ensures multiset(s) == multiset(RemoveAt(s, k)) + multiset{s[k]}
  {
    assert s == s[..k] + [s[k]] + s[k + 1..];
  }

  lemma TakeKeepsInv<C>(ready: Ready<C>, s: State<C>, current: C)
    requires Inv(ready, s)
    ensures Inv(ready, Take(ready, s, current))
  {
    hide StampSorted, Numbered;
    var p := FirstReady(ready, s.waiting, current);
    if p < |s.waiting| {
      var s' := Take(ready, s, current);
      RemovalKeepsOrder(ready, s.waiting, p);
      RemoveMultiset(s.waiting, p);
      assert Items(s'.log) == Items(s.log) + [s.waiting[p]];
      forall i | 0 <= i < |s'.log| ensures WasReady(ready, s'.log[i]) {
        assert i < |s.log| ==> WasReady(ready, s.log[i]);
      }
    }
  }

  /** Every reachable state: sorted by wake order and insertion number, nothing lost or doubled. */
  lemma {:induction false} RunKeepsInv<C(!new)>(ready: Ready<C>, s: State<C>, evs: seq<Event<C>>)
    requires WakeRelation(ready) && Inv(ready, s)
    ensures Inv(ready, Run(ready, s, evs))
  {
    if evs != [] {
      var s1, ev := Run(ready, s, evs[..|evs| - 1]), evs[|evs| - 1];
      RunKeepsInv(ready, s, evs[..|evs| - 1]);
      match ev
      case Main(p) => DoPutKeepsInv(ready, s1, p);
      case Resume(current, puts) =>
        TakeKeepsInv(ready, s1, current);
        DoPutsKeepInv(ready, Take(ready, s1, current), puts);
    }
  }

  lemma {:induction false} CapConstant<C>(ready: Ready<C>, s: State<C>, evs: seq<Event<C>>)
    ensures Run(ready, s, evs).cap == s.cap
  {
    if evs != [] {
      var s1 := Run(ready, s, evs[..|evs| - 1]);
      CapConstant(ready, s, evs[..|evs| - 1]);
      match evs[|evs| - 1]
      case Main(p) =>
      case Resume(current, puts) => PutsKeepLog(ready, Take(ready, s1, current), puts);
    }
  }

  lemma {:induction false} PutsKeepLog<C>(ready: Ready<C>, s: State<C>, ps: seq<Put<C>>)
    ensures DoPuts(ready, s, ps).log == s.log && DoPuts(ready, s, ps).cap == s.cap
    decreases |ps|
  {
    if ps != [] {
      PutsKeepLog(ready, DoPut(ready, s, ps[0]), ps[1..]);
    }
  }

  lemma ReachableInv<C(!new)>(ready: Ready<C>, cap: nat, evs: seq<Event<C>>)
    requires WakeRelation(ready)
    ensures Inv(ready, Run(ready, Init(cap), evs)) && Run(ready, Init(cap), evs).cap == cap
  {
    RunKeepsInv(ready, Init(cap), evs);
    CapConstant(ready, Init(cap), evs);
  }

  /** Handle conservation over any run: the accepted entries are, each exactly once, those resumed
      and those still waiting. */
  lemma Conservation<C(!new)>(ready: Ready<C>, cap: nat, evs: seq<Event<C>>)
    requires WakeRelation(ready)
    ensures var s := Run(ready, Init(cap), evs);
            && |s.accepted| == |s.waiting| + |s.log|
            && multiset(s.accepted) == multiset(s.waiting) + multiset(Items(s.log))
            && (forall e :: e in s.accepted ==> multiset(s.waiting)[e] + multiset(Items(s.log))[e] == 1)
  {
    RunKeepsInv(ready, Init(cap), evs);
    var s := Run(ready, Init(cap), evs);
    assert |multiset(s.accepted)| == |multiset(s.waiting)| + |multiset(Items(s.log))|;
    forall e | e in s.accepted ensures multiset(s.accepted)[e] == 1 {
      AcceptedOnce(s.accepted, e);
    }
  }

  lemma {:induction false} AcceptedOnce<C>(es: seq<Item<C>>, e: Item<C>)
    requires Numbered(es)
    ensures multiset(es)[e] == if e in es then 1 else 0
  {
    if es != [] {
      var n := |es| - 1;
      AcceptedOnce(es[..n], e);
      assert es == es[..n] + [es[n]];
    }
  }

  lemma HeadFirst<C>(ready: Ready<C>, ws: seq<Item<C>>, e: Item<C>)
    requires StampSorted(ready, ws) && e in ws
    ensures e == ws[0] || Precedes(ready, ws[0], e)
  {
    var i :| 0 <= i < |ws| && ws[i] == e;
    assert i == 0 || Precedes(ready, ws[0], ws[i]);
  }

  lemma SameHead<C>(ready: Ready<C>, xs: seq<Item<C>>, ys: seq<Item<C>>)
    requires StampSorted(ready, xs) && StampSorted(ready, ys) && xs != [] && ys != [] && xs[0] in ys && ys[0] in xs
    ensures xs[0] == ys[0]
  {
    hide StampSorted;
    HeadFirst(ready, ys, xs[0]);
    HeadFirst(ready, xs, ys[0]);
  }

  lemma TailSorted<C>(ready: Ready<C>, ws: seq<Item<C>>)
    requires StampSorted(ready, ws) && ws != []
    ensures StampSorted(ready, ws[1..])
  {
    RemovalKeepsOrder(ready, ws, 0);
    assert RemoveAt(ws, 0) == ws[1..];
  }

  lemma TailMultiset<T>(xs: seq<T>)
    requires xs != []
    ensures multiset(xs[1..]) == multiset(xs) - multiset{xs[0]}
  {
    assert xs == [xs[0]] + xs[1..];
  }

  lemma SameMembers<T>(xs: seq<T>, ys: seq<T>)
    requires multiset(xs) == multiset(ys)
    ensures |xs| == |ys| && (xs != [] ==> xs[0] in ys && ys[0] in xs)
  {
    assert |xs| == |multiset(xs)| == |multiset(ys)| == |ys|;
    if xs != [] {
      assert xs[0] in multiset(ys) && ys[0] in multiset(xs);
    }
  }

  /** The order of the waiting list is determined by which entries wait, whatever the run was. */
  lemma {:induction false} OrderDetermined<C>(ready: Ready<C>, xs: seq<Item<C>>, ys: seq<Item<C>>)
    requires StampSorted(ready, xs) && StampSorted(ready, ys) && multiset(xs) == multiset(ys)
    ensures xs == ys
  {
    hide StampSorted;
    SameMembers(xs, ys);
    if xs != [] {
      SameHead(ready, xs, ys);
      TailSorted(ready, xs);
      TailSorted(ready, ys);
      TailMultiset(xs);
      TailMultiset(ys);
      OrderDetermined(ready, xs[1..], ys[1..]);
      assert xs == [xs[0]] + xs[1..] && ys == [ys[0]] + ys[1..];
    }
  }

  /** From a sorted list `resume` takes the head or nothing. */
  lemma TakesHead<C(!new)>(ready: Ready<C>, s: State<C>, current: C)
    requires WakeRelation(ready) && StampSorted(ready, s.waiting)
    ensures Runs(ready, s, current) <==> s.waiting != [] && ready(s.waiting[0].cond, current)
    ensures Runs(ready, s, current) ==>
              Take(ready, s, current) == s.(waiting := s.waiting[1..], log := s.log + [Ran(s.waiting[0], current)])
  {
    StampSortedIsSorted(ready, s.waiting);
    OnlyHeadRuns(ready, s.waiting, current);
    assert s.waiting != [] ==> RemoveAt(s.waiting, 0) == s.waiting[1..];
  }

  /** In every reachable state `resume` runs a task exactly when the head is ready, and then it runs
      the head. */
  lemma ReachableResume<C(!new)>(ready: Ready<C>, cap: nat, evs: seq<Event<C>>, current: C)
    requires WakeRelation(ready)
    ensures var s := Run(ready, Init(cap), evs);
            && (Runs(ready, s, current) <==> s.waiting != [] && ready(s.waiting[0].cond, current))
            && (Runs(ready, s, current) ==>
                  && Take(ready, s, current).waiting == s.waiting[1..]
                  && Take(ready, s, current).log == s.log + [Ran(s.waiting[0], current)])
            && (Runs(ready, s, current) <==> exists i :: 0 <= i < |s.waiting| && ready(s.waiting[i].cond, current))
  {
    ReachableInv(ready, cap, evs);
    TakesHead(ready, Run(ready, Init(cap), evs), current);
  }

  predicate EarlierExpiry(a: Item<int>, b: Item<int>) {
    a.cond < b.cond || (a.cond == b.cond && a.handle.id < b.handle.id)
  }

  predicate HigherPriority(a: Item<int>, b: Item<int>) {
    a.cond > b.cond || (a.cond == b.cond && a.handle.id > b.handle.id)
  }

  /** Ascending expiry; equal expiries first in, first out. */
  ghost predicate InDelayOrder(ws: seq<Item<int>>) {
    forall i, j {:trigger EarlierExpiry(ws[i], ws[j])} :: 0 <= i < j < |ws| ==>
      ws[i].handle.id != ws[j].handle.id && EarlierExpiry(ws[i], ws[j])
  }

  /** Descending priority; equal priorities last in, first out. */
  ghost predicate InPriorityOrder(ws: seq<Item<int>>) {
    forall i, j {:trigger HigherPriority(ws[i], ws[j])} :: 0 <= i < j < |ws| ==>
      ws[i].handle.id != ws[j].handle.id && HigherPriority(ws[i], ws[j])
  }

  /** What the generic order means for the two wake conditions. */
  lemma OrdersMeant(ws: seq<Item<int>>)
    ensures StampSorted(DELAY, ws) <==> InDelayOrder(ws)
    ensures StampSorted(PRIORITY, ws) <==> InPriorityOrder(ws)
  {
    if StampSorted(DELAY, ws) {
      forall i, j | 0 <= i < j < |ws| ensures ws[i].handle.id != ws[j].handle.id && EarlierExpiry(ws[i], ws[j]) {
        assert Precedes(DELAY, ws[i], ws[j]);
      }
    }
    if InDelayOrder(ws) {
      forall i, j | 0 <= i < j < |ws| ensures Precedes(DELAY, ws[i], ws[j]) {
        assert EarlierExpiry(ws[i], ws[j]);
      }
    }
    if StampSorted(PRIORITY, ws) {
      forall i, j | 0 <= i < j < |ws| ensures ws[i].handle.id != ws[j].handle.id && HigherPriority(ws[i], ws[j]) {
        assert Precedes(PRIORITY, ws[i], ws[j]);
      }
    }
    if InPriorityOrder(ws) {
      forall i, j | 0 <= i < j < |ws| ensures Precedes(PRIORITY, ws[i], ws[j]) {
        assert HigherPriority(ws[i], ws[j]);
      }
    }
  }

  /** So every run of a delay scheduler keeps its list in the one order, every run of a priority
      scheduler in the other. */
  lemma RunsKeepOrder(cap: nat, evs: seq<Event<int>>)
    ensures InDelayOrder(Run(DELAY, Init(cap), evs).waiting)
    ensures InPriorityOrder(Run(PRIORITY, Init(cap), evs).waiting)
  {
    DelayAndPriorityAreWakeRelations();
    RunKeepsInv(DELAY, Init(cap), evs);
    RunKeepsInv(PRIORITY, Init(cap), evs);
    OrdersMeant(Run(DELAY, Init(cap), evs).waiting);
    OrdersMeant(Run(PRIORITY, Init(cap), evs).waiting);
  }

  // ---------------------------------------------------------------- capacity

  ghost function Tasks<C>(ws: seq<Item<C>>): set<nat> {
    set i | 0 <= i < |ws| :: ws[i].handle.task
  }

  /** A suspended task cannot suspend again, and only the tasks in `users` use this scheduler. */
  ghost predicate LegalPut<C>(s: State<C>, p: Put<C>, users: set<nat>) {
    p.task in users && p.task !in Tasks(s.waiting)
  }

  ghost predicate LegalPuts<C>(ready: Ready<C>, s: State<C>, ps: seq<Put<C>>, users: set<nat>)
    decreases |ps|
  {
    ps == [] || (LegalPut(s, ps[0], users) && LegalPuts(ready, DoPut(ready, s, ps[0]), ps[1..], users))
  }

  ghost predicate LegalEvent<C>(ready: Ready<C>, s: State<C>, ev: Event<C>, users: set<nat>) {
    match ev
    case Main(p) => LegalPut(s, p, users)
    case Resume(current, puts) =>
      Runs(ready, s, current) ==> LegalPuts(ready, Take(ready, s, current), puts, users)
  }

  ghost predicate LegalRun<C>(ready: Ready<C>, s: State<C>, evs: seq<Event<C>>, users: set<nat>) {
    forall i :: 0 <= i < |evs| ==> LegalEvent(ready, Run(ready, s, evs[..i]), evs[i], users)
  }

  ghost predicate Roomy<C>(s: State<C>, users: set<nat>) {
    && s.refused == 0 && |users| <= s.cap
    && Tasks(s.waiting) <= users && |Tasks(s.waiting)| == |s.waiting|
  }

  lemma InsertTasks<C>(ws: seq<Item<C>>, k: nat, e: Item<C>)
    requires k <= |ws|
    ensures Tasks(InsertAt(ws, k, e)) == Tasks(ws) + {e.handle.task}
  {
    var ws' := InsertAt(ws, k, e);
    forall i | 0 <= i < |ws'| ensures ws'[i].handle.task in Tasks(ws) + {e.handle.task} {
      assert ws'[i] == if i < k then ws[i] else if i == k then e else ws[i - 1];
    }
    forall i | 0 <= i < |ws| ensures ws[i].handle.task in Tasks(ws') {
      assert ws'[if i < k then i else i + 1] == ws[i];
    }
    assert ws'[k] == e;
  }

  lemma PutKeepsRoomy<C>(ready: Ready<C>, s: State<C>, p: Put<C>, users: set<nat>)
    requires Roomy(s, users) && LegalPut(s, p, users)
    ensures Roomy(DoPut(ready, s, p), users)
  {
    CardMonotone(Tasks(s.waiting) + {p.task}, users);
    InsertTasks(s.waiting, InsertPos(ready, s.waiting, p.cond), Entry(Stamp(p.task, |s.accepted|), p.cond));
  }

  lemma {:induction false} PutsKeepRoomy<C>(ready: Ready<C>, s: State<C>, ps: seq<Put<C>>, users: set<nat>)
    requires Roomy(s, users) && LegalPuts(ready, s, ps, users)
    ensures Roomy(DoPuts(ready, s, ps), users)
    decreases |ps|
  {
    if ps != [] {
      PutKeepsRoomy(ready, s, ps[0], users);
      PutsKeepRoomy(ready, DoPut(ready, s, ps[0]), ps[1..], users);
    }
  }

  lemma TakeKeepsRoomy<C>(ready: Ready<C>, s: State<C>, current: C, users: set<nat>)
    requires Roomy(s, users)
    ensures Roomy(Take(ready, s, current), users)
  {
    var p := FirstReady(ready, s.waiting, current);
    if p < |s.waiting| {
      var ws := RemoveAt(s.waiting, p);
      assert forall i :: 0 <= i < |ws| ==> ws[i] == s.waiting[if i < p then i else i + 1];
      assert Tasks(s.waiting) <= Tasks(ws) + {s.waiting[p].handle.task} by {
        forall i | 0 <= i < |s.waiting| && i != p ensures s.waiting[i].handle.task in Tasks(ws) {
          assert ws[if i < p then i else i - 1] == s.waiting[i];
        }
      }
      CardMonotone(Tasks(s.waiting), Tasks(ws) + {s.waiting[p].handle.task});
      TasksAtMost(ws);
    }
  }

  lemma {:induction false} TasksAtMost<C>(ws: seq<Item<C>>)
    ensures |Tasks(ws)| <= |ws|
  {
    if ws != [] {
      var n := |ws| - 1;
      TasksAtMost(ws[..n]);
      assert Tasks(ws) == Tasks(ws[..n]) + {ws[n].handle.task};
    }
  }

  /** While the tasks that use a scheduler number at most its capacity, no insertion is refused. */
  lemma {:induction false} NeverRefused<C>(ready: Ready<C>, cap: nat, evs: seq<Event<C>>, users: set<nat>)
    requires |users| <= cap && LegalRun(ready, Init(cap), evs, users)
    ensures Run(ready, Init(cap), evs).refused == 0
    ensures Roomy(Run(ready, Init(cap), evs), users)
  {
    if evs != [] {
      var before := evs[..|evs| - 1];
      var s := Run(ready, Init(cap), before);
      forall i | 0 <= i < |before| ensures LegalEvent(ready, Run(ready, Init(cap), before[..i]), before[i], users) {
        assert before[..i] == evs[..i];
      }
      NeverRefused(ready, cap, before, users);
      assert LegalEvent(ready, s, evs[|evs| - 1], users);
      match evs[|evs| - 1]
      case Main(p) => PutKeepsRoomy(ready, s, p, users);
      case Resume(current, puts) =>
        TakeKeepsRoomy(ready, s, current, users);
        if Runs(ready, s, current) {
          PutsKeepRoomy(ready, Take(ready, s, current), puts, users);
        }
    }
  }

  // ---------------------------------------------------------------- what the scheduler sees

  /** The waiting list without the insertion numbers. */
  function Visible<C>(ws: seq<Item<C>>): seq<Entry<nat, C>> {
    seq(|ws|, i requires 0 <= i < |ws| => Entry(ws[i].handle.task, ws[i].cond))
  }

  function Entries<C>(ps: seq<Put<C>>): seq<Entry<nat, C>> {
    seq(|ps|, i requires 0 <= i < |ps| => Entry(ps[i].task, ps[i].cond))
  }

  lemma {:induction false} VisiblePos<C>(ready: Ready<C>, ws: seq<Item<C>>, c: C)
    ensures InsertPos(ready, Visible(ws), c) == InsertPos(ready, ws, c)
    ensures FirstReady(ready, Visible(ws), c) == FirstReady(ready, ws, c)
  {
    if ws != [] {
      VisiblePos(ready, ws[1..], c);
      assert Visible(ws)[1..] == Visible(ws[1..]);
    }
  }

  lemma VisiblePut<C>(ready: Ready<C>, s: State<C>, p: Put<C>)
    ensures Visible(DoPut(ready, s, p).waiting) == Insert(ready, s.cap, Visible(s.waiting), Entry(p.task, p.cond))
  {
    hide FirstReady, InsertPos;
    VisiblePos(ready, s.waiting, p.cond);
    if |s.waiting| < s.cap {
      VisibleInsert(s.waiting, InsertPos(ready, s.waiting, p.cond), Entry(Stamp(p.task, |s.accepted|), p.cond));
    }
  }

  lemma VisibleInsert<C>(ws: seq<Item<C>>, k: nat, e: Item<C>)
    requires k <= |ws|
    ensures Visible(InsertAt(ws, k, e)) == InsertAt(Visible(ws), k, Entry(e.handle.task, e.cond))
  {
  }

  lemma {:induction false} VisiblePuts<C>(ready: Ready<C>, s: State<C>, ps: seq<Put<C>>)
    ensures Visible(DoPuts(ready, s, ps).waiting) == InsertAll(ready, s.cap, Visible(s.waiting), Entries(ps))
    decreases |ps|
  {
    hide FirstReady, Insert, Visible;
    if ps != [] {
      VisiblePut(ready, s, ps[0]);
      VisiblePuts(ready, DoPut(ready, s, ps[0]), ps[1..]);
      assert Entries(ps)[1..] == Entries(ps[1..]);
    }
  }

  /** The tasks resumed. */
  function Ids<C>(log: seq<Ran<C>>): seq<nat> {
    seq(|log|, i requires 0 <= i < |log| => log[i].item.handle.task)
  }

  /** The runs are those of the class `OrderedScheduler`: dropping the insertion numbers, a main
      event is what `Insert` promises about the waiting list, a resume event what `Resume` does. */
  lemma MainIsInsert<C>(ready: Ready<C>, s: State<C>, p: Put<C>)
    ensures Visible(Step(ready, s, Main(p)).waiting) == Insert(ready, s.cap, Visible(s.waiting), Entry(p.task, p.cond))
    ensures Step(ready, s, Main(p)).log == s.log
  {
    VisiblePut(ready, s, p);
  }

  /** A resume event runs the head of the visible list, if it is ready, and logs it. */
  lemma ResumeIsResume<C(!new)>(ready: Ready<C>, s: State<C>, current: C, puts: seq<Put<C>>)
    requires WakeRelation(ready) && Inv(ready, s)
    ensures var ws, s' := Visible(s.waiting), Step(ready, s, Resume(current, puts));
            if ws != [] && ready(ws[0].cond, current) then
              && Runs(ready, s, current)
              && Visible(s'.waiting) == InsertAll(ready, s.cap, ws[1..], Entries(puts))
              && s'.log == s.log + [Ran(s.waiting[0], current)]
              && Ids(s'.log) == Ids(s.log) + [ws[0].handle]
            else !Runs(ready, s, current) && s' == s
  {
    hide FirstReady, InsertAll, StampSorted, WakeRelation, Numbered, LogReady, Take, DoPuts;
    TakesHead(ready, s, current);
    if Runs(ready, s, current) {
      var taken := Take(ready, s, current);
      VisiblePuts(ready, taken, puts);
      PutsKeepLog(ready, taken, puts);
      assert Visible(s.waiting[1..]) == Visible(s.waiting)[1..];
      assert Ids(taken.log) == Ids(s.log) + [s.waiting[0].handle.task];
    }
  }

  // ---------------------------------------------------------------- what is offered

  /** The insertions that an event asks for. */
  function OfferOf<C>(ready: Ready<C>, s: State<C>, ev: Event<C>): seq<Put<C>> {
    match ev
    case Main(p) => [p]
    case Resume(current, puts) => if Runs(ready, s, current) then puts else []
  }

  /** Those of a run: of the main program, and of the tasks resumed. */
  function Offers<C>(ready: Ready<C>, s: State<C>, evs: seq<Event<C>>): seq<Put<C>> {
    if evs == [] then [] else
      var n := |evs| - 1;
      Offers(ready, s, evs[..n]) + OfferOf(ready, Run(ready, s, evs[..n]), evs[n])
  }

  /** All offers are accepted or refused, and the accepted ones are numbered in the order of the offers. */
  ghost predicate Booked<C>(s: State<C>, offers: seq<Put<C>>) {
    && |s.accepted| + s.refused == |offers|
    && Subsequence(Visible(s.accepted), Entries(offers))
  }

  lemma PutBooked<C>(ready: Ready<C>, s: State<C>, offers: seq<Put<C>>, p: Put<C>)
    requires Booked(s, offers)
    ensures Booked(DoPut(ready, s, p), offers + [p])
  {
    var e := Entry(Stamp(p.task, |s.accepted|), p.cond);
    assert Entries(offers + [p]) == Entries(offers) + [Entry(p.task, p.cond)];
    assert Visible(s.accepted + [e]) == Visible(s.accepted) + [Entry(p.task, p.cond)];
    SubsequenceMore(Visible(s.accepted), Entries(offers), Entry(p.task, p.cond));
  }

  lemma {:induction false} PutsBooked<C>(ready: Ready<C>, s: State<C>, offers: seq<Put<C>>, ps: seq<Put<C>>)
    requires Booked(s, offers)
    ensures Booked(DoPuts(ready, s, ps), offers + ps)
    decreases |ps|
  {
    hide Booked, DoPut;
    if ps == [] {
      assert offers + ps == offers;
    } else {
      PutBooked(ready, s, offers, ps[0]);
      PutsBooked(ready, DoPut(ready, s, ps[0]), offers + [ps[0]], ps[1..]);
      assert (offers + [ps[0]]) + ps[1..] == offers + ps;
    }
  }

  lemma {:induction false} RunBooked<C>(ready: Ready<C>, cap: nat, evs: seq<Event<C>>)
    ensures Booked(Run(ready, Init(cap), evs), Offers(ready, Init(cap), evs))
  {
    hide Visible, Subsequence, Entries;
    if evs == [] {
      NothingBooked<C>(cap);
    } else {
      var n := |evs| - 1;
      var s1, offers := Run(ready, Init(cap), evs[..n]), Offers(ready, Init(cap), evs[..n]);
      RunBooked(ready, cap, evs[..n]);
      match evs[n]
      case Main(p) => PutBooked(ready, s1, offers, p);
      case Resume(current, puts) =>
        if Runs(ready, s1, current) {
          PutsBooked(ready, Take(ready, s1, current), offers, puts);
        } else {
          assert offers + [] == offers;
        }
    }
  }

  lemma NothingBooked<C>(cap: nat)
    ensures Booked<C>(Init(cap), [])
  {
  }

  /** Over any run each insertion asked for, re-entrant or not, is accepted or refused, and the accepted
      ones are numbered in the order in which they were asked for.  So when none is refused, exactly
      those asked for are waiting or have been resumed. */
  lemma AllOffersBooked<C(!new)>(ready: Ready<C>, cap: nat, evs: seq<Event<C>>)
    requires WakeRelation(ready)
    ensures var s, offers := Run(ready, Init(cap), evs), Offers(ready, Init(cap), evs);
            && |s.accepted| + s.refused == |offers|
            && Subsequence(Visible(s.accepted), Entries(offers))
            && (s.refused == 0 ==>
                  && Visible(s.accepted) == Entries(offers)
                  && multiset(Visible(s.waiting)) + multiset(Visible(Items(s.log))) == multiset(Entries(offers)))
  {
    hide Visible, Subsequence, Entries, StampSorted, Numbered, LogReady, Items, Run, Offers;
    var s, offers := Run(ready, Init(cap), evs), Offers(ready, Init(cap), evs);
    RunBooked(ready, cap, evs);
    RunKeepsInv(ready, Init(cap), evs) by { InitInv(ready, cap); }
    VisibleBag(s.accepted, s.waiting + Items(s.log));
    VisibleConcat(s.waiting, Items(s.log));
    SubsequenceLength(Visible(s.accepted), Entries(offers));
    VisibleLength(s.accepted, offers);
  }

  lemma InitInv<C>(ready: Ready<C>, cap: nat)
    ensures Inv(ready, Init(cap))
  {
  }

  lemma VisibleConcat<C>(a: seq<Item<C>>, b: seq<Item<C>>)
    ensures Visible(a + b) == Visible(a) + Visible(b)
  {
  }

  lemma VisibleLength<C>(ws: seq<Item<C>>, ps: seq<Put<C>>)
    ensures |Visible(ws)| == |ws| && |Entries(ps)| == |ps|
  {
  }

  /** Dropping the numbers loses none. */
  lemma {:induction false} VisibleBag<C>(xs: seq<Item<C>>, ys: seq<Item<C>>)
    requires multiset(xs) == multiset(ys)
    ensures multiset(Visible(xs)) == multiset(Visible(ys))
  {
    SameMembers(xs, ys);
    if xs == [] {
      assert Visible(xs) == [] == Visible(ys);
    } else {
      var k :| 0 <= k < |ys| && ys[k] == xs[0];
      RemoveMultiset(ys, k);
      TailMultiset(xs);
      VisibleBag(xs[1..], RemoveAt(ys, k));
      VisibleRemove(ys, k);
      assert Visible(xs) == [Entry(xs[0].handle.task, xs[0].cond)] + Visible(xs[1..]);
      RemoveMultiset(Visible(ys), k);
    }
  }

  lemma VisibleRemove<C>(ws: seq<Item<C>>, k: nat)
    requires k < |ws|
    ensures Visible(RemoveAt(ws, k)) == RemoveAt(Visible(ws), k)
  {
  }
}
