/** The class `scheduler_ordered` driven through whole runs: what is proved of all runs in `OrderedRuns`
    and `TimedRuns` holds of the class. */
module SchedulerRuns {
  import opened Sequences
  import opened WakeOrder
  import opened OrderedRuns
  import opened OrderedSchedulers

  /** Insertions by the main program and calls of `resume` in any order.  The list is the one of the
      run, and the handles resumed are those of its log. */
  method Drive<C(!new, 0)>(ready: Ready<C>, maxTasks: nat, evs: seq<Event<C>>)
      returns (scheduler: OrderedScheduler<C>, resumed: seq<nat>)
    requires WakeRelation(ready) && 1 <= maxTasks
    ensures scheduler.Valid() && scheduler.ready == ready && scheduler.waiting.capacity == maxTasks
    ensures var s := Run(ready, Init(maxTasks), evs);
            scheduler.Contents() == Visible(s.waiting) && resumed == Ids(s.log)
  {
    hide InsertAll, Insert, OrderedRuns.Step, StaticLists.Pool, StaticLists.At, WakeRelation, Sorted, OrderedRuns.Inv;
    scheduler := new OrderedScheduler(ready, maxTasks);
    resumed := [];
    ghost var s := Init<C>(maxTasks);
    assert evs[..0] == [];
    for i := 0 to |evs|
      invariant scheduler.Valid() && scheduler.ready == ready && scheduler.waiting.capacity == maxTasks
      invariant fresh(scheduler.Repr())
      invariant s == Run(ready, Init(maxTasks), evs[..i])
      invariant scheduler.Contents() == Visible(s.waiting) && resumed == Ids(s.log)
    {
      assert evs[..i + 1][..i] == evs[..i];
      ReachableInv(ready, maxTasks, evs[..i]);
      match evs[i] {
        case Main(p) =>
          MainIsInsert(ready, s, p);
          scheduler.Insert(p.task, p.cond);
        case Resume(current, puts) =>
          ResumeIsResume(ready, s, current, puts);
          var pending, condition, ran := scheduler.Resume(current, (h: nat) => Entries(puts));
          resumed := resumed + if ran.Some? then [ran.value] else [];
      }
      s := OrderedRuns.Step(ready, s, evs[i]);
    }
    assert evs[..|evs|] == evs;
  }
}
