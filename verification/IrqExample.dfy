/** The tasks, the interrupt handler and the main loop of src/example_irq.cpp, every handler
    invocation and every main-loop `resume` taken as one step. */
module IrqExample {
  import opened Sequences
  import opened WakeOrder
  import opened Coroutines
  import opened Placement
  import opened StaticLists
  import opened CoroutineRuntime

  const WORD := 0x1_0000_0000

  // The schedulers, in the order of their declaration; task h waits for interrupts on scheduler h.
  const ISR: nat := 0
  const MTI: nat := 1
  const MEI: nat := 2
  const MAIN: nat := 3

  // mcause of a 32-bit core
  const INTERRUPT_BIT := 0x8000_0000
  const CAUSE_MTI := 7
  const CAUSE_MEI := 11

  /** The frame of `resuming_on_isr_and_main`: where it is suspended, its 32-bit loop variable, and
      the two 32-bit counters it sets. */
  datatype Frame = Frame(atMain: bool, i: nat, isrCount: nat, mainCount: nat)

  // The body of all three tasks; h % 3 is h for each of them and makes the body total.
  const BODY: Body<Frame> := (h: nat, f: Frame) =>
    if !f.atMain then Next(f.(isrCount := f.i, atMain := true), [], Some(MAIN))
    else Next(f.(mainCount := f.i, i := (f.i + 1) % WORD, atMain := false), [], Some(h % 3))

  const SUSPENDED_AT: (nat, Frame) -> Option<nat> := (h: nat, f: Frame) => Some(if f.atMain then MAIN else h % 3)

  const USES: Uses := (h: nat, s: nat) => s == MAIN || s == h % 3

  const FIRST: Frame := Frame(false, 1, 0, 0)

  /** The three tasks t3, t4, t5 after their creation. */
  function Setup(): World<Frame> {
    World([1, 1, 1, 3], [[0], [1], [2], []], [FIRST, FIRST, FIRST], [Some(ISR), Some(MTI), Some(MEI)], [], 0)
  }

  datatype Event =
    | Interrupt(mcause: nat)
    | MainLoop

  function Handler(w: World<Frame>, mcause: nat): World<Frame> {
    var w1 := Call(BODY, w, ISR);
    if (mcause / INTERRUPT_BIT) % 2 == 1 then
      if mcause % 0x100 == CAUSE_MEI then Call(BODY, w1, MEI)
      else if mcause % 0x100 == CAUSE_MTI then Call(BODY, w1, MTI)
      else w1
    else w1
  }

  function Step(w: World<Frame>, ev: Event): World<Frame> {
    match ev
    case Interrupt(mcause) => Handler(w, mcause)
    case MainLoop => Call(BODY, w, MAIN)
  }

  function Run(w: World<Frame>, evs: seq<Event>): World<Frame> {
    if evs == [] then w else Step(Run(w, evs[..|evs| - 1]), evs[|evs| - 1])
  }

  /** The frame of a task that came back isr times from its interrupt list, main times from the main
      list. */
  predicate FrameRel(f: Frame, isr: nat, main: nat) {
    && isr == (if f.atMain then main + 1 else main)
    && f.isrCount == isr % WORD
    && f.mainCount == main % WORD
    && f.i == (main + 1) % WORD
  }

  predicate FrameInv(w: World<Frame>, h: nat)
    requires h < |w.frames|
  {
    FrameRel(w.frames[h], CameBack(w.log, h, h % 3), CameBack(w.log, h, MAIN))
  }

  lemma BodyKeepsRel(h: nat, f: Frame, isr: nat, main: nat)
    requires FrameRel(f, isr, main)
    ensures FrameRel(BODY(h, f).frame, if f.atMain then isr else isr + 1, if f.atMain then main + 1 else main)
  {
  }

  ghost predicate IrqInv(w: World<Frame>) {
    && Good(USES, w) && Tracks(w, SUSPENDED_AT) && |w.queues| == 4 && |w.frames| == 3
    && forall h :: 0 <= h < 3 ==> FrameInv(w, h)
  }

  lemma BodyFacts()
    ensures MovesOn(BODY, SUSPENDED_AT) && Respects(BODY, USES, 4) && Quiet(BODY)
  {
  }

  lemma SetupUsers()
    ensures Users(USES, 3, 0) == {0} && Users(USES, 3, 1) == {1} && Users(USES, 3, 2) == {2} && Users(USES, 3, 3) == {0, 1, 2}
  {
  }

  lemma SetupInv()
    ensures IrqInv(Setup())
  {
    hide Users, Count;
    var w := Setup();
    assert QueueOk(w, ISR) && QueueOk(w, MTI) && QueueOk(w, MEI) && QueueOk(w, MAIN);
    SetupUsers();
    forall h | 0 <= h < 3 ensures TaskPlaced(USES, w, h) && FrameInv(w, h) {
      CountEmpty(OfTaskFrom(h, h % 3));
      CountEmpty(OfTaskFrom(h, MAIN));
    }
  }

  lemma CallKeepsInv(w: World<Frame>, s: nat)
    requires IrqInv(w) && s < 4
    ensures IrqInv(Call(BODY, w, s)) && Call(BODY, w, s).queues[s] == []
  {
    hide Good, QueueIs;
    BodyFacts();
    CallResumesEachOnce(BODY, SUSPENDED_AT, USES, w, s);
    GoodQueueIs(USES, w, s);
    var w', q := Call(BODY, w, s), w.queues[s];
    forall h | 0 <= h < 3 ensures FrameInv(w', h) {
      OneList(USES, w, h, s);
      FrameStep(w, w', q, s, h);
    }
  }

  lemma FrameStep(w: World<Frame>, w': World<Frame>, q: seq<nat>, s: nat, h: nat)
    requires |w.frames| == |w'.frames| == 3 && h < 3 && FrameInv(w, h) && Ran(BODY, w, w', q)
    requires Distinct(q) && w'.log == w.log + Tag(q, s) && (h in q <==> SUSPENDED_AT(h, w.frames[h]) == Some(s))
    ensures FrameInv(w', h)
  {
    hide FrameRel, Count, Tag, Distinct;
    CountTag(w.log, q, s, OfTaskFrom(h, h % 3), h);
    CountTag(w.log, q, s, OfTaskFrom(h, MAIN), h);
    if h in q {
      BodyKeepsRel(h, w.frames[h], CameBack(w.log, h, h % 3), CameBack(w.log, h, MAIN));
    }
  }

  lemma {:induction false} RunKeepsInv(w: World<Frame>, evs: seq<Event>)
    requires IrqInv(w)
    ensures IrqInv(Run(w, evs))
  {
    hide IrqInv, Call;
    if evs != [] {
      var w1 := Run(w, evs[..|evs| - 1]);
      RunKeepsInv(w, evs[..|evs| - 1]);
      match evs[|evs| - 1]
      case MainLoop => CallKeepsInv(w1, MAIN);
      case Interrupt(mcause) =>
        CallKeepsInv(w1, ISR);
        CallKeepsInv(Call(BODY, w1, ISR), MEI);
        CallKeepsInv(Call(BODY, w1, ISR), MTI);
    }
  }

  /** In every interleaving of interrupts, of any cause, and main-loop resumes: no insertion is
      dropped, each task sits in exactly one list, its main count never exceeds its interrupt count
      and lags by at most one, and the difference decides which list it is in. */
  lemma Interleavings(evs: seq<Event>, h: nat)
    requires h < 3
    ensures var w := Run(Setup(), evs);
            && |w.queues| == 4 && |w.frames| == 3 && w.dropped == 0
            && var isr, main := CameBack(w.log, h, h), CameBack(w.log, h, MAIN);
               && main <= isr <= main + 1
               && (forall s :: 0 <= s < 4 ==> (h in w.queues[s] <==> s == if isr == main then h else MAIN))
               && w.frames[h].isrCount == isr % 0x1_0000_0000 && w.frames[h].mainCount == main % 0x1_0000_0000
  {
    SetupInv();
    RunKeepsInv(Setup(), evs);
    var w := Run(Setup(), evs);
    assert FrameInv(w, h);
    forall s | 0 <= s < 4 ensures h in w.queues[s] <==> w.waitingOn[h] == Some(s) {
      OneList(USES, w, h, s);
    }
  }

  // ---------------------------------------------------------------- the counters

  predicate Wakes(mcause: nat, h: nat) {
    || h == 0
    || ((mcause / INTERRUPT_BIT) % 2 == 1
        && ((h == 1 && mcause % 0x100 == CAUSE_MTI) || (h == 2 && mcause % 0x100 == CAUSE_MEI)))
  }

  /** How often a task has come back from its interrupt list and from the main list. */
  datatype Moves = Moves(isr: nat, main: nat)

  function MovesOf(w: World<Frame>, h: nat): Moves {
    Moves(CameBack(w.log, h, h), CameBack(w.log, h, MAIN))
  }

  /** The same told from the events alone: an interrupt that wakes the task counts unless the main loop
      still has to take it. */
  function Move(m: Moves, ev: Event, h: nat): Moves {
    match ev
    case Interrupt(mcause) => if Wakes(mcause, h) && m.isr == m.main then m.(isr := m.isr + 1) else m
    case MainLoop => if m.isr == m.main + 1 then m.(main := m.main + 1) else m
  }

  function Moved(evs: seq<Event>, h: nat): Moves {
    if evs == [] then Moves(0, 0) else Move(Moved(evs[..|evs| - 1], h), evs[|evs| - 1], h)
  }

  /** The list a task is in follows from how often it has moved. */
  lemma WhereIs(w: World<Frame>, s: nat, h: nat)
    requires IrqInv(w) && s < 4 && h < 3
    ensures |w.queues| == 4
    ensures var m := MovesOf(w, h);
            && (m.isr == m.main || m.isr == m.main + 1)
            && (h in w.queues[s] <==> s == if m.isr == m.main then h else MAIN)
  {
    hide Good, Count;
    OneList(USES, w, h, s);
    assert FrameInv(w, h);
  }

  lemma CallIsPass(w: World<Frame>, s: nat)
    requires IrqInv(w) && s < 4
    ensures |w.queues| == 4 && QueueIs(w, s, w.queues[s]) && Call(BODY, w, s).log == w.log + Tag(w.queues[s], s)
  {
    hide QueueIs, Good, Call, Tag, MovesOn, Respects, Quiet, Ran, FrameInv;
    BodyFacts();
    CallResumesEachOnce(BODY, SUSPENDED_AT, USES, w, s);
    GoodQueueIs(USES, w, s);
  }

  lemma CallMoves(w: World<Frame>, s: nat, h: nat)
    requires IrqInv(w) && s < 4 && h < 3
    ensures var m, m' := MovesOf(w, h), MovesOf(Call(BODY, w, s), h);
            m' == if s == h && m.isr == m.main then m.(isr := m.isr + 1)
                  else if s == MAIN && m.isr == m.main + 1 then m.(main := m.main + 1)
                  else m
  {
    hide IrqInv, QueueIs, Call, Tag, CameBack;
    WhereIs(w, s, h);
    CallIsPass(w, s);
    PassMoves(w, Call(BODY, w, s), w.queues[s], s, h);
  }

  lemma PassMoves(w: World<Frame>, w': World<Frame>, q: seq<nat>, s: nat, h: nat)
    requires QueueIs(w, s, q) && w'.log == w.log + Tag(q, s)
    ensures var m := MovesOf(w, h);
            MovesOf(w', h) == Moves(m.isr + if h in q && s == h then 1 else 0, m.main + if h in q && s == MAIN then 1 else 0)
  {
    hide Count, Tag;
    CountTag(w.log, q, s, OfTaskFrom(h, h), h);
    CountTag(w.log, q, s, OfTaskFrom(h, MAIN), h);
  }

  lemma StepMoves(w: World<Frame>, ev: Event, h: nat)
    requires IrqInv(w) && h < 3
    ensures MovesOf(Step(w, ev), h) == Move(MovesOf(w, h), ev, h)
  {
    hide IrqInv, Call, MovesOf;
    match ev
    case MainLoop => CallMoves(w, MAIN, h);
    case Interrupt(mcause) =>
      CallKeepsInv(w, ISR);
      CallMoves(w, ISR, h);
      CallMoves(Call(BODY, w, ISR), MEI, h);
      CallMoves(Call(BODY, w, ISR), MTI, h);
  }

  /** How often a task has moved is determined by the events in this way. */
  lemma {:induction false} RunMoves(evs: seq<Event>, h: nat)
    requires h < 3
    ensures MovesOf(Run(Setup(), evs), h) == Moved(evs, h)
  {
    hide IrqInv, MovesOf, Step, Move, Setup;
    SetupInv();
    if evs == [] {
      SetupMoves(h);
    } else {
      RunMoves(evs[..|evs| - 1], h);
      RunKeepsInv(Setup(), evs[..|evs| - 1]);
      StepMoves(Run(Setup(), evs[..|evs| - 1]), evs[|evs| - 1], h);
    }
  }

  lemma SetupMoves(h: nat)
    ensures MovesOf(Setup(), h) == Moves(0, 0)
  {
  }

  /** The 32-bit counters that the program shows agree with the order of the events. */
  predicate InOrder(w: World<Frame>, h: nat) {
    h < |w.frames| && w.frames[h].mainCount <= w.frames[h].isrCount <= w.frames[h].mainCount + 1
  }

  /** They do exactly when the interrupt counter has not just wrapped alone. */
  lemma CountersInOrderIff(evs: seq<Event>, h: nat)
    requires h < 3
    ensures var m := Moved(evs, h);
            InOrder(Run(Setup(), evs), h) <==> !(m.isr == m.main + 1 && m.main % WORD == WORD - 1)
  {
    var w := Run(Setup(), evs);
    hide Run, Setup, CameBack, Moved;
    Interleavings(evs, h);
    RunMoves(evs, h);
    Residues(Moved(evs, h));
  }

  lemma Residues(m: Moves)
    requires m.main <= m.isr <= m.main + 1
    ensures m.main % WORD <= m.isr % WORD <= m.main % WORD + 1 <==> !(m.isr == m.main + 1 && m.main % WORD == WORD - 1)
  {
  }

  function WakesTask(h: nat): Event -> bool { (ev: Event) => ev.Interrupt? && Wakes(ev.mcause, h) }

  lemma {:induction false} MovedBound(evs: seq<Event>, h: nat)
    ensures Moved(evs, h).isr <= Count(evs, WakesTask(h))
  {
    if evs != [] {
      MovedBound(evs[..|evs| - 1], h);
    }
  }

  /** n interrupts of the same cause, each followed by a turn of the main loop. */
  function Rounds(n: nat, mcause: nat): seq<Event> {
    if n == 0 then [] else Rounds(n - 1, mcause) + [Interrupt(mcause)] + [MainLoop]
  }

  lemma MovedLast(evs: seq<Event>, ev: Event, h: nat)
    ensures Moved(evs + [ev], h) == Move(Moved(evs, h), ev, h)
  {
    assert (evs + [ev])[..|evs|] == evs;
  }

  lemma {:induction false} RoundsMove(n: nat, mcause: nat, h: nat)
    requires Wakes(mcause, h)
    ensures Moved(Rounds(n, mcause), h) == Moves(n, n) && Count(Rounds(n, mcause), WakesTask(h)) == n
    ensures Moved(Rounds(n, mcause) + [Interrupt(mcause)], h) == Moves(n + 1, n)
    ensures Count(Rounds(n, mcause) + [Interrupt(mcause)], WakesTask(h)) == n + 1
  {
    hide Wakes, Count;
    var evs := Rounds(n, mcause);
    if n > 0 {
      var evs1 := Rounds(n - 1, mcause) + [Interrupt(mcause)];
      RoundsMove(n - 1, mcause, h);
      MovedLast(evs1, MainLoop, h);
      CountLast(evs1, MainLoop, WakesTask(h));
    } else {
      CountEmpty(WakesTask(h));
    }
    MovedLast(evs, Interrupt(mcause), h);
    CountLast(evs, Interrupt(mcause), WakesTask(h));
  }

  function CauseFor(h: nat): (mcause: nat)
    ensures h < 3 ==> Wakes(mcause, h)
  {
    if h == 1 then INTERRUPT_BIT + CAUSE_MTI else INTERRUPT_BIT + CAUSE_MEI
  }

  /** That state is reached: after 2^32 - 1 rounds and one more interrupt the main counter is at its
      largest value and the interrupt counter at zero. */
  lemma WrapReached(h: nat)
    requires h < 3
    ensures var evs := Rounds(WORD - 1, CauseFor(h)) + [Interrupt(CauseFor(h))];
            var w := Run(Setup(), evs);
            && Count(evs, WakesTask(h)) == 0x1_0000_0000
            && h < |w.frames| && w.frames[h].mainCount == 0xFFFF_FFFF && w.frames[h].isrCount == 0
            && !InOrder(w, h)
  {
    var evs := Rounds(WORD - 1, CauseFor(h)) + [Interrupt(CauseFor(h))];
    RoundsMove(WORD - 1, CauseFor(h), h);
    Interleavings(evs, h);
    RunMoves(evs, h);
    hide Run, Setup, CameBack, Moved, Rounds, CauseFor, Count;
  }

  /** The counters are in order in all runs with fewer than n interrupts for the task exactly when n is
      at most 2^32. */
  lemma InOrderBelowIff(h: nat, n: nat)
    requires h < 3
    ensures (forall evs :: Count(evs, WakesTask(h)) < n ==> InOrder(Run(Setup(), evs), h)) <==> n <= 0x1_0000_0000
  {
    hide InOrder, Run, Setup, Count, Rounds, Wakes;
    if n <= WORD {
      forall evs | Count(evs, WakesTask(h)) < n ensures InOrder(Run(Setup(), evs), h) {
        CountersInOrderIff(evs, h);
        MovedBound(evs, h);
        BelowWord(Moved(evs, h));
      }
    } else {
      WrapReached(h);
      var evs := Rounds(WORD - 1, CauseFor(h)) + [Interrupt(CauseFor(h))];
      assert Count(evs, WakesTask(h)) < n && !InOrder(Run(Setup(), evs), h);
    }
  }

  lemma BelowWord(m: Moves)
    requires m.isr < WORD
    ensures !(m.isr == m.main + 1 && m.main % WORD == WORD - 1)
  {
  }

  // ---------------------------------------------------------------- who moves

  lemma MainList(w: World<Frame>, h: nat)
    requires IrqInv(w) && h < 3
    ensures h in w.queues[MAIN] <==> w.frames[h].atMain
  {
    OneList(USES, w, h, MAIN);
  }

  lemma CallEffect(w: World<Frame>, s: nat, h: nat)
    requires IrqInv(w) && s < 4 && h < 3
    ensures var w' := Call(BODY, w, s);
            |w'.frames| == 3 && w'.frames[h].atMain == if s == MAIN then false else w.frames[h].atMain || h == s
  {
    hide Good, QueueIs, FrameInv, Call, MovesOn, Respects, Tag;
    BodyFacts();
    CallResumesEachOnce(BODY, SUSPENDED_AT, USES, w, s);
    OneList(USES, w, h, s);
    RanMoves(w, Call(BODY, w, s), w.queues[s], s, h);
  }

  lemma RanMoves(w: World<Frame>, w': World<Frame>, q: seq<nat>, s: nat, h: nat)
    requires |w.frames| == 3 && s < 4 && h < 3 && Ran(BODY, w, w', q)
    requires h in q <==> SUSPENDED_AT(h, w.frames[h]) == Some(s)
    ensures w'.frames[h].atMain == if s == MAIN then false else w.frames[h].atMain || h == s
  {
  }

  /** Which tasks an interrupt brings to the main list: t3 always, t4 for the timer, t5 for an external
      interrupt.  A `resume` of the main loop takes all of them away from it. */
  lemma WhoMoves(evs: seq<Event>, mcause: nat, h: nat)
    requires h < 3
    ensures var w := Run(Setup(), evs);
            var interrupted, resumed := Step(w, Interrupt(mcause)), Step(w, MainLoop);
            var cause := if (mcause / INTERRUPT_BIT) % 2 == 1 then mcause % 0x100 else 0;
            && |w.queues| == |interrupted.queues| == |resumed.queues| == 4
            && (h in interrupted.queues[MAIN] <==>
                  h in w.queues[MAIN] || h == 0 || (h == 1 && cause == CAUSE_MTI) || (h == 2 && cause == CAUSE_MEI))
            && h !in resumed.queues[MAIN]
  {
    hide IrqInv, Call;
    SetupInv();
    RunKeepsInv(Setup(), evs);
    var w := Run(Setup(), evs);
    var w1 := Call(BODY, w, ISR);
    CallKeepsInv(w, ISR);
    CallKeepsInv(w, MAIN);
    CallKeepsInv(w1, MTI);
    CallKeepsInv(w1, MEI);
    EffectOn(w, h);
  }

  lemma EffectOn(w: World<Frame>, h: nat)
    requires h < 3 && IrqInv(w) && IrqInv(Call(BODY, w, ISR)) && IrqInv(Call(BODY, w, MAIN))
    requires IrqInv(Call(BODY, Call(BODY, w, ISR), MTI)) && IrqInv(Call(BODY, Call(BODY, w, ISR), MEI))
    ensures |w.queues| == 4 && |Call(BODY, w, ISR).queues| == 4 && |Call(BODY, w, MAIN).queues| == 4
    ensures |Call(BODY, Call(BODY, w, ISR), MTI).queues| == 4 && |Call(BODY, Call(BODY, w, ISR), MEI).queues| == 4
    ensures var now := h in w.queues[MAIN];
            && (h in Call(BODY, w, ISR).queues[MAIN] <==> now || h == 0)
            && (h in Call(BODY, Call(BODY, w, ISR), MTI).queues[MAIN] <==> now || h == 0 || h == 1)
            && (h in Call(BODY, Call(BODY, w, ISR), MEI).queues[MAIN] <==> now || h == 0 || h == 2)
            && h !in Call(BODY, w, MAIN).queues[MAIN]
  {
    hide Good, Tracks, FrameInv, Call;
    var w1 := Call(BODY, w, ISR);
    MainList(w, h);
    MainList(w1, h);
    MainList(Call(BODY, w, MAIN), h);
    MainList(Call(BODY, w1, MTI), h);
    MainList(Call(BODY, w1, MEI), h);
    CallEffect(w, ISR, h);
    CallEffect(w, MAIN, h);
    CallEffect(w1, MTI, h);
    CallEffect(w1, MEI, h);
  }

  // ---------------------------------------------------------------- in which order

  lemma {:induction false} AllGoTo(frames: seq<Frame>, t: nat, q: seq<nat>)
    requires AllBelow(q, |frames|) && forall i :: 0 <= i < |q| ==> BODY(q[i], frames[q[i]]).await == Some(t)
    ensures Staying(BODY, frames, t, q) == q
  {
    if q != [] {
      AllGoTo(frames, t, q[1..]);
      assert q == [q[0]] + q[1..];
    }
  }

  lemma {:induction false} NoneGoTo(frames: seq<Frame>, t: nat, q: seq<nat>)
    requires AllBelow(q, |frames|) && forall i :: 0 <= i < |q| ==> BODY(q[i], frames[q[i]]).await != Some(t)
    ensures Staying(BODY, frames, t, q) == []
  {
    if q != [] {
      NoneGoTo(frames, t, q[1..]);
    }
  }

  /** The task of an interrupt list is about to go to the main list. */
  lemma InterruptListGoesOn(w: World<Frame>, s: nat)
    requires IrqInv(w) && s < 3
    ensures AllBelow(w.queues[s], |w.frames|)
    ensures forall t :: 0 <= t < 4 ==> Staying(BODY, w.frames, t, w.queues[s]) == if t == MAIN then w.queues[s] else []
  {
    GoodQueueIs(USES, w, s);
    var q := w.queues[s];
    forall i | 0 <= i < |q| ensures BODY(q[i], w.frames[q[i]]).await == Some(MAIN) {
      OneList(USES, w, q[i], s);
    }
    forall t | 0 <= t < 4 ensures Staying(BODY, w.frames, t, q) == if t == MAIN then q else [] {
      if t == MAIN { AllGoTo(w.frames, t, q); } else { NoneGoTo(w.frames, t, q); }
    }
  }

  lemma FourLists(w: World<Frame>)
    requires IrqInv(w)
    ensures |w.queues| == 4
  {
  }

  /** `resume` of an interrupt list moves it behind the main list and touches no other. */
  lemma InterruptListMoves(w: World<Frame>, s: nat)
    requires IrqInv(w) && s < 3
    ensures var w' := Call(BODY, w, s);
            && |w.queues| == 4
            && w'.queues == w.queues[s := []][MAIN := w.queues[MAIN] + w.queues[s]]
            && w'.log == w.log + Tag(w.queues[s], s)
  {
    hide Good, Call, Staying, Tag, MovesOn, Respects, Quiet, QueueIs, AllBelow;
    CallKeepsInv(w, s);
    CallIsPass(w, s);
    BodyFacts();
    InterruptListGoesOn(w, s);
    var w' := Call(BODY, w, s);
    assert |w'.queues| == 4 by { FourLists(w'); }
    forall t | 0 <= t < 4 && t != s ensures w'.queues[t] == if t == MAIN then w.queues[MAIN] + w.queues[s] else w.queues[t] {
      CallSends(BODY, USES, w, s, t);
      assert w.queues[t] + [] == w.queues[t];
    }
  }

  /** First the tasks that wait for any interrupt have run, then, for the timer interrupt (cause 7) and
      the external one (cause 11), those that wait for it, and they line up behind the main list in
      that order. */
  ghost predicate HandledInOrder(w: World<Frame>, w': World<Frame>, mcause: nat) {
    && |w.queues| == 4
    && var interrupt, code := (mcause / 0x8000_0000) % 2 == 1, mcause % 256;
       var timer := if interrupt && code == 7 then w.queues[1] else [];
       var external := if interrupt && code == 11 then w.queues[2] else [];
       && w'.queues == [[], if interrupt && code == 7 then [] else w.queues[1], if interrupt && code == 11 then [] else w.queues[2],
                        w.queues[3] + w.queues[0] + timer + external]
       && w'.log == w.log + Tag(w.queues[0], 0) + Tag(timer, 1) + Tag(external, 2)
  }

  lemma HandlerOrder(w: World<Frame>, mcause: nat)
    requires IrqInv(w)
    ensures HandledInOrder(w, Step(w, Interrupt(mcause)), mcause)
  {
    hide IrqInv, Call, Tag;
    var w1 := Call(BODY, w, ISR);
    CallKeepsInv(w, ISR);
    InterruptListMoves(w, ISR);
    InterruptListMoves(w1, MTI);
    InterruptListMoves(w1, MEI);
    FourLists(w);
    assert w1.queues == [[], w.queues[1], w.queues[2], w.queues[3] + w.queues[0]];
    NoTag(1);
    NoTag(2);
    var interrupt, code := (mcause / 0x8000_0000) % 2 == 1, mcause % 256;
    var timer := if interrupt && code == 7 then w.queues[1] else [];
    var external := if interrupt && code == 11 then w.queues[2] else [];
    var w' := Step(w, Interrupt(mcause));
    assert w' == if interrupt && code == 11 then Call(BODY, w1, MEI) else if interrupt && code == 7 then Call(BODY, w1, MTI) else w1;
    assert w'.queues[3] == w.queues[3] + w.queues[0] + timer + external;
    assert w'.log == w.log + Tag(w.queues[0], 0) + Tag(timer, 1) + Tag(external, 2);
  }

  /** So it is in every reachable state, and the next `resume` of the main loop runs the tasks in the
      order in which they line up. */
  lemma InterruptOrder(evs: seq<Event>, mcause: nat)
    ensures var w := Run(Setup(), evs);
            var w' := Step(w, Interrupt(mcause));
            && HandledInOrder(w, w', mcause)
            && Step(w', MainLoop).log == w'.log + Tag(w'.queues[3], 3)
  {
    hide IrqInv, Tag, Handler;
    SetupInv();
    RunKeepsInv(Setup(), evs);
    HandlerOrder(Run(Setup(), evs), mcause);
    RunKeepsInv(Run(Setup(), evs), [Interrupt(mcause)]);
    OneStep(Run(Setup(), evs), Interrupt(mcause));
    CallIsPass(Step(Run(Setup(), evs), Interrupt(mcause)), MAIN);
  }

  lemma OneStep(w: World<Frame>, ev: Event)
    ensures Run(w, [ev]) == Step(w, ev)
  {
    assert [ev][..0] == [];
  }

  lemma NoTag(s: nat)
    ensures Tag([], s) == []
  {
  }

  lemma {:induction false} OnlyOneGoes(frames: seq<Frame>, t: nat, q: seq<nat>)
    requires AllBelow(q, |frames|) && Distinct(q) && t < 3
    requires forall i :: 0 <= i < |q| ==> q[i] < 3 && BODY(q[i], frames[q[i]]).await == Some(q[i])
    ensures Staying(BODY, frames, t, q) == if t in q then [t] else []
  {
    if q != [] {
      DistinctTail(q);
      OnlyOneGoes(frames, t, q[1..]);
    }
  }

  /** A `resume` of the main loop runs the tasks of the main list in order and sends each back to the
      list of its own interrupt. */
  lemma MainLoopOrder(evs: seq<Event>, h: nat)
    requires h < 3
    ensures var w := Run(Setup(), evs);
            && |w.queues| == 4
            && var w' := Step(w, MainLoop);
            && |w'.queues| == 4 && w'.queues[3] == []
            && w'.log == w.log + Tag(w.queues[3], 3)
            && w'.queues[h] == w.queues[h] + if h in w.queues[3] then [h] else []
  {
    hide Call, Tag, Good, MovesOn, Respects, Quiet, Staying;
    SetupInv();
    RunKeepsInv(Setup(), evs);
    var w := Run(Setup(), evs);
    CallKeepsInv(w, MAIN);
    CallIsPass(w, MAIN);
    BodyFacts();
    CallSends(BODY, USES, w, MAIN, h);
    var q := w.queues[MAIN];
    forall i | 0 <= i < |q| ensures q[i] < 3 && BODY(q[i], w.frames[q[i]]).await == Some(q[i]) {
      OneList(USES, w, q[i], MAIN);
    }
    OnlyOneGoes(w.frames, h, q);
  }

  // ---------------------------------------------------------------- the program

  /** Schedulers of the given capacities. */
  method NewLists(caps: seq<nat>) returns (lists: seq<StaticList<nat>>)
    requires forall i :: 0 <= i < |caps| ==> caps[i] >= 1
    ensures |lists| == |caps|
    ensures forall i :: 0 <= i < |lists| ==> lists[i].Valid() && lists[i].Contents() == [] && lists[i].capacity == caps[i]
    ensures forall i :: 0 <= i < |lists| ==> fresh(lists[i].Repr())
    ensures forall i, j {:trigger lists[i], lists[j]} ::
              0 <= i < |lists| && 0 <= j < |lists| && i != j ==> lists[i].Repr() !! lists[j].Repr()
  {
    hide Pool, At;
    if caps == [] {
      lists := [];
    } else {
      var n := |caps| - 1;
      var rest := NewLists(caps[..n]);
      var list := new StaticList<nat>(caps[n]);
      lists := rest + [list];
    }
  }

  /** Four schedulers of capacities 1, 1, 1 and 3, and the three tasks, each run to its first await. */
  method SetUpProgram() returns (rt: Runtime<Frame>)
    ensures rt.Valid() && rt.body == BODY && rt.Model() == Setup()
    ensures |rt.lists| == 4 && rt.lists[0].capacity == rt.lists[1].capacity == rt.lists[2].capacity == 1 && rt.lists[3].capacity == 3
    ensures fresh(rt) && fresh(rt.lists) && fresh(rt.Nexts()) && fresh(rt.Prevs()) && fresh(rt.Values())
  {
    hide Pool, At, LaunchAll;
    var lists := NewLists([1, 1, 1, 3]);
    rt := new Runtime(BODY, lists, [FIRST, FIRST, FIRST]);
    ghost var w0 := rt.Model();
    assert w0.caps == [1, 1, 1, 3] && w0.queues == [[], [], [], []] && w0.waitingOn == [None, None, None];
    rt.LaunchEach(STARTS);
    StartsUp(w0);
  }

  const STARTS: seq<Start<Frame>> := [Start(0, FIRST, ISR), Start(1, FIRST, MTI), Start(2, FIRST, MEI)]

  lemma StartsUp(w: World<Frame>)
    requires w == World([1, 1, 1, 3], [[], [], [], []], [FIRST, FIRST, FIRST], [None, None, None], [], 0)
    ensures LaunchAll(w, STARTS) == Setup()
  {
    assert [] + [0] == [0] && [] + [1] == [1] && [] + [2] == [2];
    var w1 := Launch(w, STARTS[0]);
    assert w1.queues == [[0], [], [], []];
    var w2 := Launch(w1, STARTS[1]);
    assert w2.queues == [[0], [1], [], []];
    var w3 := Launch(w2, STARTS[2]);
    assert w3.queues == [[0], [1], [2], []];
    assert w3.waitingOn == [Some(ISR), Some(MTI), Some(MEI)];
    assert STARTS[1..][1..][1..] == [];
    assert LaunchAll(w, STARTS) == LaunchAll(w1, STARTS[1..]) == LaunchAll(w2, STARTS[1..][1..])
        == LaunchAll(w3, STARTS[1..][1..][1..]);
  }

  /** `resume` of one scheduler; of the main one, it is the step of the main loop. */
  method ResumeList(rt: Runtime<Frame>, s: nat)
    requires rt.Valid() && rt.body == BODY && IrqInv(rt.Model()) && s < 4
    modifies rt, rt.lists, rt.Nexts(), rt.Prevs(), rt.Values()
    ensures rt.Valid() && IrqInv(rt.Model()) && rt.Model() == Call(BODY, old(rt.Model()), s)
  {
    hide IrqInv, Good, Pool;
    CallKeepsInv(rt.Model(), s);
    FourLists(rt.Model());
    FourLists(Call(BODY, rt.Model(), s));
    rt.Resume(s, |rt.queues[s]|);
  }

  /** The interrupt handler. */
  method HandlerProgram(rt: Runtime<Frame>, mcause: nat)
    requires rt.Valid() && rt.body == BODY && IrqInv(rt.Model())
    modifies rt, rt.lists, rt.Nexts(), rt.Prevs(), rt.Values()
    ensures rt.Valid() && IrqInv(rt.Model()) && rt.Model() == Step(old(rt.Model()), Interrupt(mcause))
    ensures HandledInOrder(old(rt.Model()), rt.Model(), mcause)
  {
    hide IrqInv, Call, HandledInOrder;
    HandlerOrder(rt.Model(), mcause);
    ResumeList(rt, ISR);
    if (mcause / INTERRUPT_BIT) % 2 == 1 {
      if mcause % 0x100 == CAUSE_MEI {
        ResumeList(rt, MEI);
      } else if mcause % 0x100 == CAUSE_MTI {
        ResumeList(rt, MTI);
      }
    }
  }

  /** The whole program: set up, then interrupts and turns of the main loop in any order. */
  method RunProgram(evs: seq<Event>) returns (rt: Runtime<Frame>)
    ensures rt.Valid() && rt.body == BODY && rt.Model() == Run(Setup(), evs)
  {
    hide IrqInv, Call, Setup, Handler, Pool;
    rt := SetUpProgram();
    SetupInv();
    assert evs[..0] == [];
    for i := 0 to |evs|
      invariant rt.Valid() && rt.body == BODY && IrqInv(rt.Model()) && rt.Model() == Run(Setup(), evs[..i])
      invariant fresh(rt) && fresh(rt.lists) && fresh(rt.Nexts()) && fresh(rt.Prevs()) && fresh(rt.Values())
    {
      assert evs[..i + 1][..i] == evs[..i];
      match evs[i]
      case Interrupt(mcause) => HandlerProgram(rt, mcause);
      case MainLoop => ResumeList(rt, MAIN);
    }
    assert evs[..|evs|] == evs;
  }
}
