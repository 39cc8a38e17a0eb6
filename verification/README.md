# Verified model of the coroutine runtime

The runtime schedules C++20 coroutines without allocation: a doubly linked list pooled in one
buffer, two schedulers built on it, coroutines that insert themselves again while a scheduler
resumes them, and a driver that reads and programs a 64-bit timer over a 32-bit bus. This project
models these parts and proves what they promise, for every input and every run.

| file | what it holds |
|---|---|
| `Sequences.dfy` | positional edits of sequences, sequences without repetition, counting, subsequences |
| `StaticList.dfy` | the pooled list: arrays `next`, `prev`, `value`, the free chain, the iterators |
| `WakeOrder.dfy` | wake relations, sorted insertion, first-ready search, the reported condition |
| `OrderedScheduler.dfy` | the class `scheduler_ordered` on the pooled list |
| `OrderedRuns.dfy`, `SchedulerRuns.dfy` | all runs of an ordered scheduler, for any wake relation, and the class driven through them |
| `TimedRuns.dfy`, `Pace.dfy` | all runs of a delay scheduler against a clock |
| `PeriodicTasks.dfy`, `PeriodicRuns.dfy`, `TimerExample.dfy` | periodic tasks and the loop that drives them, as timed runs and as a program |
| `Coroutines.dfy`, `Fifo.dfy`, `Draining.dfy` | coroutines on unordered schedulers and their runs, FIFO order, what one `resume` does |
| `CoroutineRuntime.dfy` | the class `scheduler_unordered` on pooled lists, with the coroutines it resumes |
| `Placement.dfy`, `Alternation.dfy` | tasks shared by several schedulers, alternating tasks |
| `IrqExample.dfy` | the interrupt example as an interleaving system and as a program |
| `Mtimer.dfy`, `Units.dfy` | mtime, mtimecmp, tick conversions and the clock; the way of a delay to the compare register |

How the source is represented:

- A pointer into the node buffer is a node number, `NULL` is `nullptr`. Two ghost sequences name the
  nodes on the used and the free chain; the list refines the sequence `Contents()`.
- A wake condition is the number it compares: the expiry in nanoseconds or the priority. Everything
  about ordering is proved once, for each relation that is transitive and has a transitive
  complement. The strict clock comparison gives FIFO ties, the reflexive priority comparison LIFO ties.
- A coroutine handle is a number. In the ordered scheduler, resuming a coroutine is a finite sequence
  of insertions. In the unordered one it is a body that maps a frame to the next frame, the coroutines
  it starts on the way, each suspended on some scheduler, and the next scheduler awaited, or none.
- Clocks, the advance of mtime between bus accesses, and interrupts are inputs that are free apart
  from the stated hypotheses.
- Each `resume` call and each handler invocation is one step: the source has no lock around a list
  operation, so preemption inside of one is not part of this model.

Where the code and its own comments or callers disagree, the model follows the code:

- `resume` says that it keeps track of the soonest entry. It reports the last one; the report is the
  soonest exactly when the whole list is tied (`ReportIsSoonestIff`), and the comparison with its
  arguments exchanged would be the soonest (`SoonestReportIsHead`).
- When a task has run, the reported condition is empty although `pending` is true (`Resume`), and
  src/example_timer.cpp:100,104 and src/example_simple.cpp:114 read it without a test. The modelled
  loop lets the clock advance arbitrarily; what sleeping past the report gains is `SleptPastReport`.
- The driver calls the 64-bit range large enough not to consider a wrap. Ticks pass through `int`, so
  the clock is right, and runs forwards, exactly for readings below 2^31 (`NowIsTimeIff`,
  `RunsForwardsIff`).
- The 32-bit counters of the interrupt example fall out of order when the interrupt counter wraps
  alone (`WrapReached`). They are in order in all runs with fewer than n interrupts for a task exactly
  when n is at most 2^32 (`InOrderBelowIff`).

## Model

| member | source | states |
|---|---|---|
| StaticLists.StaticList.constructor | include/coro/static_list.hpp:119-132 | a new list is empty, and its invariant holds: both chains doubly linked, disjoint, together all nodes |
| StaticLists.StaticList.GetFreeElem | include/coro/static_list.hpp:308-318 | the head of the free chain leaves it, nullptr when there is none |
| StaticLists.StaticList.ReturnFreeElem | include/coro/static_list.hpp:324-331 | the node joins the front of the free chain, the used chain stays linked |
| StaticLists.StaticList.Emplace | include/coro/static_list.hpp:215-253 | refines insertion before the iterator into a sequence bounded by the capacity; a full list is unchanged; every live iterator keeps its element and its place among the others |
| StaticLists.StaticList.EmplaceBack | include/coro/static_list.hpp:258-276 | refines appending to the bounded sequence; a full list is unchanged |
| StaticLists.StaticList.Erase | include/coro/static_list.hpp:280-301 | refines removal at the iterator, for head, tail and middle nodes; every other live iterator keeps its element and its place among the others |
| StaticLists.StaticList.PopFront | include/coro/static_list.hpp:175-187 | refines removing the first element, a no-op on an empty list |
| StaticLists.StaticList.PopBack | include/coro/static_list.hpp:192-204 | refines removing the last element, a no-op on an empty list |
| StaticLists.StaticList.Forward | include/coro/static_list.hpp:81-91 | iterating from begin() to end() yields the contents |
| StaticLists.StaticList.Backward | include/coro/static_list.hpp:81-91 | iterating from rbegin() to rend() yields the reverse of the contents |
| StaticLists.PoolUnlink | include/coro/static_list.hpp:280-301 | bridging over any used node keeps both chains linked and disjoint, and says what becomes of the ends |
| StaticLists.PoolLink | include/coro/static_list.hpp:223-251 | linking a free node in at any position keeps both chains linked and disjoint, and says what becomes of the ends |
| StaticLists.PoolCovers | include/coro/static_list.hpp:340-347 | no node is ever lost: each node of the buffer is on exactly one of the two chains |
| StaticLists.InsertKeepsIterators | include/coro/static_list.hpp:214-253 | inserting leaves every live iterator on its node, with the element unchanged, in the same relative order |
| StaticLists.EraseKeepsIterators | include/coro/static_list.hpp:280-301 | erasing leaves every other live iterator on its node, with the element unchanged, in the same relative order |
| WakeOrder.InsertPosSplits | include/coro/scheduler.hpp:213-223 | for any wake relation the walk of `insert` stops where exactly the entries behind it are ones the new condition is ready against |
| WakeOrder.InsertKeepsSorted | include/coro/scheduler.hpp:213-223 | `insert` keeps the list sorted and adds exactly one entry when there is room, none otherwise |
| WakeOrder.InsertAllAdds | include/coro/scheduler.hpp:213-262 | several insertions keep the list sorted and add all of their entries, as far as there is room, and nothing else |
| WakeOrder.InsertAllOrder | include/coro/scheduler.hpp:213-262 | of two of these entries the later stands in front exactly when it is ready against the earlier |
| WakeOrder.InsertAllTies | include/coro/scheduler.hpp:57-104 | ties among them stand in the order of insertion in a delay list, in the reverse order in a priority list |
| WakeOrder.OnlyHeadRuns | include/coro/scheduler.hpp:245-250 | in a sorted list the first ready entry is the head, or there is none |
| WakeOrder.ReportTiesLast | include/coro/scheduler.hpp:264-268 | for any wake relation the reported condition is one of the list's and ties with the last |
| WakeOrder.ReportIsLast | include/coro/scheduler.hpp:264-268 | so the report is the latest expiry, or the lowest priority |
| WakeOrder.ReportIsSoonestIff | include/coro/scheduler.hpp:264-268 | the report is the soonest expiry exactly when first and last expiry are equal |
| WakeOrder.ReportNotSoonest | include/coro/scheduler.hpp:264-268 | two distinct expiries for which the comment is false |
| WakeOrder.SoonestReportIsHead | include/coro/scheduler.hpp:264-268 | with the comparison's arguments exchanged the report would be the soonest expiry |
| WakeOrder.PastReportAllDue | include/coro/scheduler.hpp:237-280 | any clock past a reported expiry finds every entry then waiting due |
| OrderedSchedulers.OrderedScheduler.Insert | include/coro/scheduler.hpp:213-223 | the list-walking code performs the sorted insertion, and the list stays sorted |
| OrderedSchedulers.OrderedScheduler.Resume | include/coro/scheduler.hpp:236-280 | a task runs exactly when the head is ready and it is the head; (true, none), (true, some) and (false, none) are exactly the three cases; the report ties with the last entry; all re-entrant insertions take effect after the removal, each adding its entry while there is room |
| OrderedRuns.RunKeepsInv | include/coro/scheduler.hpp:213-280 | in every run the list is sorted by wake order and insertion number and the books balance |
| OrderedRuns.Conservation | include/coro/scheduler.hpp:213-262 | the accepted entries are, each exactly once, those resumed and those still waiting |
| OrderedRuns.AllOffersBooked | include/coro/scheduler.hpp:213-262 | each insertion that the main program or a resumed task asks for is accepted or refused, the accepted ones numbered in the order asked; with none refused, exactly those asked for wait or have been resumed |
| OrderedRuns.OrderDetermined | include/coro/scheduler.hpp:213-223 | the order of the waiting list depends on nothing but which entries wait |
| OrderedRuns.RunsKeepOrder | include/coro/scheduler.hpp:71-104 | delay runs keep ascending expiry with FIFO ties, priority runs descending priority with LIFO ties |
| OrderedRuns.ReachableResume | include/coro/scheduler.hpp:245-263 | in every reachable state a resume runs a task exactly when some entry is ready, exactly when the head is, and then the head |
| OrderedRuns.NeverRefused | include/coro/scheduler.hpp:213-223 | no insertion is refused while the tasks that use the scheduler, each suspended at most once, number at most its capacity |
| OrderedRuns.MainIsInsert | include/coro/scheduler.hpp:213-223 | the runs are those of the class: an insertion does to the visible list what `Insert` promises |
| OrderedRuns.ResumeIsResume | include/coro/scheduler.hpp:237-280 | the runs are those of the class: a resume runs the head of the visible list if it is ready, logs it with the condition given, and leaves the list as `Resume` promises; otherwise it changes nothing |
| SchedulerRuns.Drive | include/coro/scheduler.hpp:213-280 | the class driven through any sequence of insertions and resumes holds the list of the run and has returned the handles of its log |
| TimedRuns.ResumedInOrder | include/coro/scheduler.hpp:57-73 | in every run whose readings are not ahead of the clock, the log is strictly increasing in (expiry, insertion number), and nothing runs before its expiry has passed |
| TimedRuns.TimedIsRun | include/coro/scheduler.hpp:57-60 | a timed run is the run of the scheduler with the insertions its events ask for, its clock advanced by exactly their time |
| TimedRuns.PutsAt | include/coro/awaitable_timer.hpp:36-43 | the awaits of a resumed task ask for one insertion per positive delay, in order, expiring that delay in microseconds after the time at which the await is reached |
| TimedRuns.TimedOffersBooked | include/coro/scheduler.hpp:213-262 | accepted and refused entries number the insertions of the main program and the awaits with a positive delay of the tasks resumed |
| TimedRuns.DueCounts | include/coro/scheduler.hpp:71-73 | the entries due at a reading are a prefix of the sorted list |
| TimedRuns.DueRunFirst | include/coro/scheduler.hpp:237-262 | at a fixed reading with k entries due, k calls run exactly these in order, whatever they insert, and every further call runs nothing |
| TimedRuns.DueRunNext | include/coro/scheduler.hpp:237-262 | with k entries due at some time, each of the next k calls with later readings runs one of them, in order, whatever time passes and whatever is inserted in between |
| TimedRuns.SleptPastReport | src/example_timer.cpp:94-112 | a loop that slept past the reported expiry then runs, call by call, every task that was waiting, in order, none of these calls coming back empty |
| Pace.NeverEarly | src/example_timer.cpp:25-34 | the j-th resumption of a task looping on a positive period comes strictly after start + j * period, in nanoseconds for a period in microseconds, whatever the other tasks do |
| Pace.AwaitsOnPace | include/coro/awaitable_timer.hpp:36-43 | the awaits of a resumed task, with time passing between them and zero delays not suspending, keep the looping task's entry late enough |
| PeriodicTasks.IterateProgress | src/example_timer.cpp:94-113 | an iteration either resumes one task or brings the clock closer to the head's expiry |
| PeriodicTasks.StartExpiry | src/example_timer.cpp:51-56 | a task created waits for its period in microseconds from its creation, and for no other time |
| PeriodicTasks.RunExpiry | src/example_timer.cpp:30-33 | a resumed task with awaits left waits for its period from the time of its await, the rest of the list unchanged |
| PeriodicTasks.Finishes | test/test_timer_coro.cpp:118-129 | any set of periodic tasks with finite counts that fits the capacity finishes, with exactly the sum of the counts as successful resumes |
| PeriodicTasks.WholeRun | src/example_timer.cpp:51-56 | the same from the creation of the tasks, each resumed exactly as often as it awaits, a zero period never |
| PeriodicRuns.ProgramIsTimed | src/example_timer.cpp:51-98 | the creation of the tasks and any number of iterations are one timed run, given event by event, with the same list, clock and resumed tasks, and its readings are never ahead of the clock |
| PeriodicRuns.ProgramInOrder | src/example_timer.cpp:51-98 | at every point of the program its tasks were resumed in order of expiry, then of insertion, each after its expiry |
| PeriodicRuns.ProgramNeverEarly | src/example_timer.cpp:26-98 | in the whole program every task is resumed for the j-th time only by a reading later than its own creation plus j periods |
| PeriodicRuns.ExampleNeverEarly | src/example_timer.cpp:51-56 | for the periods of 10 s and 20 s: not before 10 and 20 thousand million nanoseconds per resumption |
| PeriodicRuns.IterateIsLooping | src/example_timer.cpp:30-33 | in an iteration every task loops on its own period, as `NeverEarly` supposes |
| TimerExample.Iteration | src/example_timer.cpp:94-98 | the loop body on the scheduler class performs one iteration of the model and keeps the counters |
| TimerExample.RunAll | test/test_timer_coro.cpp:118-129 | the loop ends, however the clock advances, with every counter grown by its task's awaits left |
| TimerExample.ExampleTimer | src/example_timer.cpp:26-56 | the whole program on the scheduler class ends with every counter at its count, also for zero periods |
| Coroutines.OnePass | include/coro/scheduler.hpp:334-340 | a pass resumes each task of the list once in order; those that stay line up behind in order; no other task is touched |
| Coroutines.TurnEffect | include/coro/scheduler.hpp:334-340 | after a turn every list is what it was, without the head resumed, followed by the coroutines that one started that await it, in order, and by that one itself if it awaits it, as far as there is room |
| Coroutines.StartedAreListed | include/coro/awaitable_unordered.hpp:37-44 | every coroutine started is in the list it awaits when there is room |
| Coroutines.TurnFrames | include/coro/scheduler.hpp:334-340 | a turn leaves the resumed task and the coroutines it starts in the frames and at the awaits their code says, and no other task changed |
| Coroutines.PassSends | include/coro/scheduler.hpp:334-340 | a pass over a list appends to every other list those of its tasks that await it next, in order |
| Draining.RoundRobin | include/coro/scheduler.hpp:334-340 | a `resume` over tasks with k awaits each returns, empties the list and runs them round robin: in round r those with k > r, in the original order |
| Draining.ReturnsIff | include/coro/scheduler.hpp:334-340 | `resume` returns exactly when every waiting task at some point awaits something else or finishes |
| Draining.DrainedOnce | include/coro/scheduler.hpp:334-340 | the state in which the loop stops is unique |
| Fifo.FirstInFirstOut | include/coro/scheduler.hpp:326-340 | over any run of turns of all the lists and insertions by the main program, with coroutines that start others, what was in a list followed by what the coroutines' code sent to it and found room is exactly what was resumed from it followed by what is in it |
| Fifo.AllAccounted | include/coro/scheduler.hpp:326-340 | over any such run every handle given to an `insert` is waiting, resumed or dropped, counted once |
| CoroutineRuntime.Runtime.Insert | include/coro/scheduler.hpp:326-328 | insertion into one pooled list leaves the others alone; a full list drops the handle |
| CoroutineRuntime.Runtime.LaunchEach | include/coro/awaitable_unordered.hpp:37-44 | coroutines that reach an await are inserted, in order, into the lists of the schedulers they await |
| CoroutineRuntime.Runtime.RunTask | include/coro/awaitable_unordered.hpp:37-44 | on the pooled lists a resumed coroutine appends to each list the coroutines it starts that await it, in order, and then itself |
| CoroutineRuntime.Runtime.Resume | include/coro/scheduler.hpp:334-340 | the draining loop on the pooled lists ends in the state of the model with the list empty |
| Placement.NeverDropped | include/coro/scheduler.hpp:326-340 | in any such run no insertion is dropped and each suspended task sits in the list it awaits, while each insertion is of a task not suspended and the users of each list number at most its capacity |
| Placement.TurnsKeepGood | include/coro/scheduler.hpp:334-340 | for coroutines that start no others this needs nothing of the insertions but that each task awaits only schedulers it is a user of |
| Placement.CallResumesEachOnce | include/coro/scheduler.hpp:334-340 | if no task awaits the same scheduler twice in a row, a `resume` runs each waiting task once and no other |
| Placement.CallSends | include/coro/scheduler.hpp:334-340 | a `resume` sends each task on to the list it awaits next, behind those already there, in the order in which they waited |
| Alternation.ResumedGreedily | test/test_unordered.cpp:37-50 | a task is resumed once for each call that is the next of its plan, whatever the others do |
| Alternation.GreedyIsLongest | test/test_unordered.cpp:87-141 | those calls make up the longest prefix of the plan that is a subsequence of the calls |
| Alternation.DoubleLoop | test/test_unordered.cpp:37-50 | the two counters of an alternating task sum to the length of that prefix of abab..., the first leading by at most one |
| Alternation.CreateOneMore | test/test_unordered.cpp:37-50 | creating one more task suspends it behind the others on the first scheduler, or finishes it for a run count of zero |
| IrqExample.RunKeepsInv | src/example_irq.cpp:74-94 | every handler invocation and main-loop resume keeps the tasks placed and their frames consistent |
| IrqExample.Interleavings | src/example_irq.cpp:30-119 | in every interleaving nothing is dropped, each task sits in exactly one list, main count <= interrupt count <= main count + 1, the difference deciding the list |
| IrqExample.RunMoves | src/example_irq.cpp:36-109 | how often a task came back from its interrupt list and from the main list is determined by the events alone |
| IrqExample.CountersInOrderIff | src/example_irq.cpp:36-43 | the 32-bit counters are in that order exactly when the interrupt count is not one ahead at a main count of 2^32 - 1 modulo 2^32 |
| IrqExample.WrapReached | src/example_irq.cpp:36-43 | after 2^32 - 1 interrupts each followed by a main resume, and one more interrupt, the main counter is 2^32 - 1 and the interrupt counter 0 |
| IrqExample.InOrderBelowIff | src/example_irq.cpp:36-43 | the counters are in order in all runs with fewer than n interrupts for the task exactly when n is at most 2^32 |
| IrqExample.WhoMoves | src/example_irq.cpp:74-109 | exactly which tasks an interrupt of any cause brings to the main list, and that a main resume takes them all away |
| IrqExample.InterruptOrder | src/example_irq.cpp:74-94 | in every reachable state an interrupt runs first the task of any interrupt, then that of its own cause (7 timer, 11 external); they line up in this order behind the main list and the main loop runs them in it |
| IrqExample.MainLoopOrder | src/example_irq.cpp:104-109 | a main resume runs the main list in order and sends each task back to its own interrupt list |
| IrqExample.SetUpProgram | src/example_irq.cpp:57-70 | creating the schedulers and tasks on the pooled lists gives the initial state |
| IrqExample.HandlerProgram | src/example_irq.cpp:74-94 | the handler on the pooled lists performs the interrupt step, in that order, and keeps the invariant |
| IrqExample.RunProgram | src/example_irq.cpp:57-119 | set-up, interrupts and main resumes in any order on the pooled lists end in the state of the run |
| Mtimer.NotTorn | include/riscv/timer.hpp:116-123 | equal high words around a low-word read make up the counter at the instant of that read |
| Mtimer.UncheckedReadIff | include/riscv/timer.hpp:116-123 | without the second read of the high word the value is the counter at the low-word read exactly when the high word has not moved, and lies between the two reads exactly when the low word has not gone back |
| Mtimer.Timer.GetRawTime | include/riscv/timer.hpp:105-125 | the loop ends and returns the 64-bit counter at the instant of its last low-word read, for any advance between accesses |
| Mtimer.Timer.SetRawTimeCmp | include/riscv/timer.hpp:82-101 | mtimecmp ends at the counter plus the offset in 64 bits, through exactly the three values of the source, none below both the old and the new one |
| Mtimer.NoSpuriousInterrupt | include/riscv/timer.hpp:91-100 | an interrupt pending between the stores would be pending under the old or the new value |
| Mtimer.TwoStoresSafeIff | include/riscv/timer.hpp:93-95 | without the first store that holds exactly when the high word does not grow or the low word does not shrink |
| Mtimer.Timer.ProgramWake | src/example_timer.cpp:102-104 | a reported condition already past programs the counter as it stands; one to come programs its remaining time in ticks, with bounds of the clock at that tick |
| Mtimer.WakeValue | include/riscv/timer.hpp:66-84 | with all values in the range of `int` the programmed value is the counter plus the delay in ticks, within those bounds |
| Mtimer.CompareTick | include/riscv/timer.hpp:49-73 | bounds of the clock at the compare tick for any time between the two reads of the counter |
| Mtimer.DueJustAfterCompare | include/coro/scheduler.hpp:71-83 | with both reads at the same tick the strict wake test is false at the compare tick and true two ticks later |
| Mtimer.TicksRoundTrip | include/riscv/timer.hpp:55-63 | ticks to nanoseconds and back loses one tick exactly when the tick does not start on a whole nanosecond |
| Mtimer.ExactFrequency | include/riscv/timer.hpp:49-63 | it loses none when the frequency divides 10^9 |
| Mtimer.OneSecond | include/riscv/timer.hpp:49-63 | a second is the frequency in ticks and 10^9 nanoseconds, both ways |
| Mtimer.TruncDivRemainder | include/riscv/timer.hpp:55-63 | conversions divide towards zero |
| Units.DelayIsTicks | include/coro/scheduler.hpp:57-60 | a delay of d microseconds, awaited and programmed at counter m, sets the compare register to m + d * f / 10^6 |
| Mtimer.NowIsTimeIff | include/riscv/scheduler-timer-mtimer.hpp:28-34 | the clock shows the counter's time exactly for readings below 2^31 |
| Mtimer.RunsForwardsIff | include/riscv/timer.hpp:71-79 | the clock never runs backwards below a bound exactly when the bound is at most 2^31 |

## Left out

- Preemption inside a list operation: the main loop of the interrupt example resumes with interrupts enabled and the code has no lock, so each `resume` and each handler invocation is atomic here.
- Coroutine frames, promises and the `co_await` operators as the compiler makes them: a coroutine is its insertions or its frame function.
- The bump allocator of include/coro/nop_task.hpp and the trace ring of include/debug/trace.hpp.
- The variant of the list over `std::list`.
- Construction and destruction of elements in place, alignment: an element is a value.
- CSR access, interrupt entry, `wfi` and start-up code; interrupts are events with an arbitrary mcause of a 32-bit core.
- The 64-bit single-access paths of the driver, and mtime beyond 2^64.
- Negative delays: a delay is a natural number of microseconds, and expiries and nanoseconds are unbounded integers.
- TimerExample.RunAll: the time slept is an arbitrary advance of the clock, not tied to the reported condition (`TimedRuns.SleptPastReport` says what the tie gains); the loop of src/example_timer.cpp itself never ends.
- CoroutineRuntime.Runtime.Resume: requires that the loop empties the list at all, which `Draining.ReturnsIff` characterises.
- Draining.RoundRobin: supposes coroutines that start no others, as those of the examples and tests are; the runs, FIFO order, dropping and the class `Runtime` cover those that start others.
- Draining.ReturnsIff: supposes coroutines that start no others, as those of the examples and tests are.
- Coroutines.OnePass: supposes coroutines that start no others, as those of the examples and tests are.
- Placement.CallResumesEachOnce: supposes coroutines that start no others, as those of the examples and tests are.
- Alternation.ResumedGreedily: supposes coroutines that start no others, as those of the examples and tests are.
- A coroutine that starts others runs to its own await after they have reached theirs: a frame function gives all of it at once.
