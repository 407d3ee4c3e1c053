/** The shutdown of a transport (minadbd/transport.c): the input and the output thread each kick the
    transport and drop a reference on their way out, the last one closes it and posts its removal, and
    the event loop frees it. Every interleaving of their steps is a run. */
module Transport {

  datatype Thread = Input | Output

  /** Where a thread is. The comments name what it is about to do. */
  datatype Pc =
    | Pump        // move packets
    | Sockets     // close the sockets of the transport (input thread only)
    | Test        // read kicked, without the lock
    | WantKick    // take the lock in kick_transport
    | InKick      // read and set kicked, drop the lock
    | CallKick    // call kick
    | Kicking     // return from kick
    | WantUnref   // take the lock in transport_unref
    | InUnref     // decrement the count
    | Last        // test kicked again, with the count at zero
    | LateKick    // kick under the lock
    | Closing     // close
    | Posting     // post the removal
    | Leaving     // drop the lock
    | Done

  /** What happens to the transport, in order. */
  datatype Event = Touch | KickStart | KickEnd | Close | Post | Free

  datatype State = State(input: Pc, output: Pc, kicked: bool, refs: int, posted: bool, freed: bool, log: seq<Event>)
  {
    function At(t: Thread): Pc { if t.Input? then input else output }

    function Move(t: Thread, pc: Pc): State { if t.Input? then this.(input := pc) else this.(output := pc) }
  }

  const START := State(Pump, Pump, false, 2, false, false, [])

  predicate HoldsLock(pc: Pc) {
    pc.InKick? || pc.InUnref? || pc.Last? || pc.LateKick? || pc.Closing? || pc.Posting? || pc.Leaving?
  }

  predicate LockFree(s: State) {
    !HoldsLock(s.input) && !HoldsLock(s.output)
  }

  predicate Enabled(s: State, t: Thread) {
    s.At(t) != Done && (s.At(t).WantKick? || s.At(t).WantUnref? ==> LockFree(s))
  }

  /** What one step does: the thread's next place, the shared fields, the events. */
  datatype Effect = Effect(pc: Pc, kicked: bool, refs: int, posted: bool, events: seq<Event>)

  /** One step from a place; stay says whether the pump goes on. */
  function StepFrom(pc: Pc, input: bool, stay: bool, kicked: bool, refs: int, posted: bool): Effect {
    match pc
    case Pump => Effect(if stay then Pump else if input then Sockets else Test, kicked, refs, posted, [Touch])
    case Sockets => Effect(Test, kicked, refs, posted, [Touch])
    case Test => Effect(if kicked then WantUnref else WantKick, kicked, refs, posted, [Touch])
    case WantKick => Effect(InKick, kicked, refs, posted, [])
    case InKick => Effect(if kicked then WantUnref else CallKick, true, refs, posted, [Touch])
    case CallKick => Effect(Kicking, kicked, refs, posted, [KickStart])
    case Kicking => Effect(WantUnref, kicked, refs, posted, [KickEnd])
    case WantUnref => Effect(InUnref, kicked, refs, posted, [])
    case InUnref => Effect(if refs - 1 == 0 then Last else Leaving, kicked, refs - 1, posted, [Touch])
    case Last => Effect(if kicked then Closing else LateKick, kicked, refs, posted, [Touch])
    case LateKick => Effect(Closing, true, refs, posted, [KickStart, KickEnd])
    case Closing => Effect(Posting, kicked, refs, posted, [Close])
    case Posting => Effect(Leaving, kicked, refs, true, [Post])
    case Leaving => Effect(Done, kicked, refs, posted, [])
    case Done => Effect(Done, kicked, refs, posted, [])
  }

  function Advance(s: State, t: Thread, stay: bool): State
    requires Enabled(s, t)
  {
    var e := StepFrom(s.At(t), t.Input?, stay, s.kicked, s.refs, s.posted);
    s.(kicked := e.kicked, refs := e.refs, posted := e.posted, log := s.log + e.events).Move(t, e.pc)
  }

  /** The event loop takes the removal message. */
  predicate CanFree(s: State) {
    s.posted && !s.freed && LockFree(s)
  }

  datatype Step = Go(thread: Thread, stay: bool) | Remove

  predicate CanTake(s: State, step: Step) {
    if step.Go? then Enabled(s, step.thread) else CanFree(s)
  }

  function Taken(s: State, step: Step): State
    requires CanTake(s, step)
  {
    if step.Go? then Advance(s, step.thread, step.stay) else s.(freed := true, log := s.log + [Free])
  }

  /** A run: states that follow each other by steps, from the start. */
  ghost predicate Run(states: seq<State>, steps: seq<Step>) {
    |states| == |steps| + 1 && states[0] == START &&
    forall i :: 0 <= i < |steps| ==> CanTake(states[i], steps[i]) && states[i + 1] == Taken(states[i], steps[i])
  }

  // ----- the order of events -----

  /** How far a transport's life has come; Bad when an event came out of order. */
  datatype Phase = Fresh | BeingKicked | Kicked | Closed | Posted | Freed | Bad

  /** The allowed order: one kick, completed before the one close, then the removal, then the release;
      nobody touches the transport after the removal is posted. */
  function Next(p: Phase, e: Event): Phase {
    match (p, e)
    case (Fresh, Touch) => Fresh
    case (Fresh, KickStart) => BeingKicked
    case (BeingKicked, Touch) => BeingKicked
    case (BeingKicked, KickEnd) => Kicked
    case (Kicked, Touch) => Kicked
    case (Kicked, Close) => Closed
    case (Closed, Post) => Posted
    case (Posted, Free) => Freed
    case _ => Bad
  }

  function PhaseOf(log: seq<Event>): Phase {
    if log == [] then Fresh else Next(PhaseOf(log[..|log| - 1]), log[|log| - 1])
  }

  lemma PhaseNote(log: seq<Event>, e: Event)
    ensures PhaseOf(log + [e]) == Next(PhaseOf(log), e)
  {
    assert (log + [e])[..|log|] == log;
  }

  // ----- the invariant -----

  predicate HasRef(pc: Pc) {
    !(pc.Last? || pc.LateKick? || pc.Closing? || pc.Posting? || pc.Leaving? || pc.Done?)
  }

  predicate Early(pc: Pc) {
    pc.Pump? || pc.Sockets? || pc.Test? || pc.WantKick? || pc.InKick?
  }

  /** Down to the end of the life, with the lock held. */
  predicate Ending(pc: Pc) {
    pc.Last? || pc.Closing? || pc.Posting?
  }

  predicate Kicker(pc: Pc) {
    pc.CallKick? || pc.Kicking?
  }

  /** The phase that goes with the threads' places. */
  function Expected(me: Pc, other: Pc, kicked: bool, posted: bool, freed: bool): Phase {
    if freed then Freed
    else if posted then Posted
    else if me.Posting? || other.Posting? then Closed
    else if !kicked || me.CallKick? || other.CallKick? then Fresh
    else if me.Kicking? || other.Kicking? then BeingKicked
    else Kicked
  }

  /** What the threads' places say about each other. */
  predicate Fits(me: Pc, other: Pc, kicked: bool, refs: int, posted: bool, freed: bool) {
    refs == (if HasRef(me) then 1 else 0) + (if HasRef(other) then 1 else 0) &&
    !me.LateKick? && !other.LateKick? &&
    !(HoldsLock(me) && HoldsLock(other)) &&
    (!kicked ==> Early(me) && Early(other)) &&
    !(Kicker(me) && Kicker(other)) &&
    (Ending(me) || Ending(other) ==> refs == 0 && !posted) &&
    (refs == 0 ==> posted || Ending(me) || Ending(other)) &&
    (posted ==> refs == 0) && (freed ==> posted)
  }

  ghost predicate Inv(s: State) {
    PhaseOf(s.log) == Expected(s.input, s.output, s.kicked, s.posted, s.freed) &&
    Fits(s.input, s.output, s.kicked, s.refs, s.posted, s.freed)
  }

  predicate CanStep(pc: Pc, other: Pc) {
    !pc.Done? && (pc.WantKick? || pc.WantUnref? ==> !HoldsLock(pc) && !HoldsLock(other))
  }

  /** A step of one thread keeps the places fitting: before it drops its reference, */
  lemma FitsBefore(me: Pc, other: Pc, input: bool, stay: bool, kicked: bool, refs: int, posted: bool, freed: bool)
    requires Fits(me, other, kicked, refs, posted, freed) && CanStep(me, other) && HasRef(me)
    ensures var e := StepFrom(me, input, stay, kicked, refs, posted);
            Fits(e.pc, other, e.kicked, e.refs, e.posted, freed)
  {}

  /** and after. */
  lemma FitsAfter(me: Pc, other: Pc, input: bool, stay: bool, kicked: bool, refs: int, posted: bool, freed: bool)
    requires Fits(me, other, kicked, refs, posted, freed) && CanStep(me, other) && !HasRef(me)
    ensures var e := StepFrom(me, input, stay, kicked, refs, posted);
            Fits(e.pc, other, e.kicked, e.refs, e.posted, freed)
  {}

  /** A step keeps the places fitting. */
  lemma FitsKept(me: Pc, other: Pc, input: bool, stay: bool, kicked: bool, refs: int, posted: bool, freed: bool)
    requires Fits(me, other, kicked, refs, posted, freed) && CanStep(me, other)
    ensures var e := StepFrom(me, input, stay, kicked, refs, posted);
            Fits(e.pc, other, e.kicked, e.refs, e.posted, freed)
  {
    hide *;
    if HasRef(me) {
      FitsBefore(me, other, input, stay, kicked, refs, posted, freed);
    } else {
      FitsAfter(me, other, input, stay, kicked, refs, posted, freed);
    }
  }

  /** The event of a step, if it has one, is the one that comes next: before the reference is dropped, */
  lemma PhaseBefore(me: Pc, other: Pc, input: bool, stay: bool, kicked: bool, refs: int, posted: bool, freed: bool)
    requires Fits(me, other, kicked, refs, posted, freed) && CanStep(me, other) && HasRef(me)
    ensures var e := StepFrom(me, input, stay, kicked, refs, posted);
            var p, q := Expected(me, other, kicked, posted, freed), Expected(e.pc, other, e.kicked, e.posted, freed);
            (e.events == [] && q == p) || (|e.events| == 1 && q == Next(p, e.events[0]))
  {}

  /** and after. */
  lemma PhaseAfter(me: Pc, other: Pc, input: bool, stay: bool, kicked: bool, refs: int, posted: bool, freed: bool)
    requires Fits(me, other, kicked, refs, posted, freed) && CanStep(me, other) && !HasRef(me)
    ensures var e := StepFrom(me, input, stay, kicked, refs, posted);
            var p, q := Expected(me, other, kicked, posted, freed), Expected(e.pc, other, e.kicked, e.posted, freed);
            (e.events == [] && q == p) || (|e.events| == 1 && q == Next(p, e.events[0]))
  {}

  /** The event of a step is the one that comes next. */
  lemma PhaseKept(me: Pc, other: Pc, input: bool, stay: bool, kicked: bool, refs: int, posted: bool, freed: bool)
    requires Fits(me, other, kicked, refs, posted, freed) && CanStep(me, other)
    ensures var e := StepFrom(me, input, stay, kicked, refs, posted);
            var p, q := Expected(me, other, kicked, posted, freed), Expected(e.pc, other, e.kicked, e.posted, freed);
            (e.events == [] && q == p) || (|e.events| == 1 && q == Next(p, e.events[0]))
  {
    hide *;
    if HasRef(me) {
      PhaseBefore(me, other, input, stay, kicked, refs, posted, freed);
    } else {
      PhaseAfter(me, other, input, stay, kicked, refs, posted, freed);
    }
  }

  lemma InvKept(s: State, step: Step)
    requires Inv(s) && CanTake(s, step)
    ensures Inv(Taken(s, step))
  {
    hide PhaseOf, Expected, Fits, StepFrom, Next;
    if step.Remove? {
      FreeKept(s.input, s.output, s.kicked, s.refs);
      PhaseNote(s.log, Free);
    } else {
      var me, other := s.At(step.thread), if step.thread.Input? then s.output else s.input;
      Symmetric(s.input, s.output, s.kicked, s.refs, s.posted, s.freed);
      FitsKept(me, other, step.thread.Input?, step.stay, s.kicked, s.refs, s.posted, s.freed);
      PhaseKept(me, other, step.thread.Input?, step.stay, s.kicked, s.refs, s.posted, s.freed);
      var e := StepFrom(me, step.thread.Input?, step.stay, s.kicked, s.refs, s.posted);
      Symmetric(e.pc, other, e.kicked, e.refs, e.posted, s.freed);
      if e.events == [] {
        assert s.log + e.events == s.log;
      } else {
        assert e.events == [e.events[0]];
        PhaseNote(s.log, e.events[0]);
      }
    }
  }

  lemma Symmetric(a: Pc, b: Pc, kicked: bool, refs: int, posted: bool, freed: bool)
    ensures Fits(a, b, kicked, refs, posted, freed) <==> Fits(b, a, kicked, refs, posted, freed)
    ensures Expected(a, b, kicked, posted, freed) == Expected(b, a, kicked, posted, freed)
  {}

  lemma FreeKept(a: Pc, b: Pc, kicked: bool, refs: int)
    ensures Fits(a, b, kicked, refs, true, false) ==> Fits(a, b, kicked, refs, true, true)
    ensures Expected(a, b, kicked, true, true) == Next(Expected(a, b, kicked, true, false), Free)
  {}

  lemma {:induction false} RunInv(states: seq<State>, steps: seq<Step>, i: nat)
    requires Run(states, steps) && i < |states|
    ensures Inv(states[i])
  {
    if i > 0 {
      RunInv(states, steps, i - 1);
      InvKept(states[i - 1], steps[i - 1]);
    }
  }

  /** Over every interleaving, the events come in order, the close and what follows it only after both threads
      have dropped their references; once both threads are done, the transport has been kicked, closed and its
      removal posted, each exactly once. */
  lemma ShutdownInOrder(states: seq<State>, steps: seq<Step>, i: nat)
    requires Run(states, steps) && i < |states|
    ensures PhaseOf(states[i].log) != Bad
    ensures PhaseOf(states[i].log) in {Closed, Posted, Freed} ==>
              states[i].refs == 0 && !HasRef(states[i].input) && !HasRef(states[i].output)
    ensures states[i].input == states[i].output == Done ==> PhaseOf(states[i].log) in {Posted, Freed}
  {
    RunInv(states, steps, i);
  }

  /** The second test of kicked, under the lock, never finds it unset. */
  lemma NoLateKick(states: seq<State>, steps: seq<Step>, i: nat)
    requires Run(states, steps) && i < |states|
    ensures states[i].input != LateKick && states[i].output != LateKick
  {
    RunInv(states, steps, i);
  }

  /** How far a thread still has to go. */
  function Distance(pc: Pc): nat {
    match pc
    case Pump => 14
    case Sockets => 13
    case Test => 12
    case WantKick => 11
    case InKick => 10
    case CallKick => 9
    case Kicking => 8
    case WantUnref => 7
    case InUnref => 6
    case Last => 5
    case LateKick => 4
    case Closing => 3
    case Posting => 2
    case Leaving => 1
    case Done => 0
  }

  /** The steps of the threads before the i-th state, not counting the packets they move. */
  function Advances(states: seq<State>, steps: seq<Step>, i: nat): nat
    requires i <= |steps| < |states|
  {
    if i == 0 then 0
    else
      var step, s := steps[i - 1], states[i - 1];
      Advances(states, steps, i - 1) + (if step.Go? && !(step.stay && s.At(step.thread).Pump?) then 1 else 0)
  }

  lemma StepIsNearer(pc: Pc, input: bool, stay: bool, kicked: bool, refs: int, posted: bool)
    ensures var to := StepFrom(pc, input, stay, kicked, refs, posted).pc;
            Distance(to) + (if pc.Done? || (stay && pc.Pump?) then 0 else 1) <= Distance(pc)
  {}

  /** Shutdown comes to its end: apart from moving packets the two threads take at most 28 steps in all, and
      until both are done one of them can always go on. */
  lemma {:induction false} ShutdownEnds(states: seq<State>, steps: seq<Step>, i: nat)
    requires Run(states, steps) && i < |states|
    ensures Advances(states, steps, i) + Distance(states[i].input) + Distance(states[i].output) <= 28
    ensures states[i].input != Done || states[i].output != Done ==>
              Enabled(states[i], Input) || Enabled(states[i], Output)
  {
    if i > 0 {
      ShutdownEnds(states, steps, i - 1);
      var s, step := states[i - 1], steps[i - 1];
      hide Distance, StepFrom;
      if step.Go? {
        StepIsNearer(s.At(step.thread), step.thread.Input?, step.stay, s.kicked, s.refs, s.posted);
      }
    }
  }

  // ----- what the order means -----

  function Count(log: seq<Event>, e: Event): nat {
    if log == [] then 0 else Count(log[..|log| - 1], e) + (if log[|log| - 1] == e then 1 else 0)
  }

  /** A log in order has at most one event of each kind but Touch, and exactly one of each up to its phase. */
  lemma {:induction false} OrderCounts(log: seq<Event>)
    requires PhaseOf(log) != Bad
    ensures var p := PhaseOf(log);
            Count(log, KickStart) == (if p == Fresh then 0 else 1) &&
            Count(log, KickEnd) == (if p in {Fresh, BeingKicked} then 0 else 1) &&
            Count(log, Close) == (if p in {Fresh, BeingKicked, Kicked} then 0 else 1) &&
            Count(log, Post) == (if p in {Posted, Freed} then 1 else 0)
  {
    if log != [] {
      var front := log[..|log| - 1];
      assert PhaseOf(log) == Next(PhaseOf(front), log[|log| - 1]);
      OrderCounts(front);
    }
  }

  /** In a log in order nothing but the release follows the removal. */
  lemma {:induction false} NothingAfterPost(log: seq<Event>, i: nat, j: nat)
    requires PhaseOf(log) != Bad && i < j < |log| && log[i] == Post
    ensures log[j] == Free
    decreases |log|
  {
    var front := log[..|log| - 1];
    assert PhaseOf(log) == Next(PhaseOf(front), log[|log| - 1]);
    if j < |log| - 1 {
      NothingAfterPost(front, i, j);
    } else {
      PostedStays(front, i);
    }
  }

  lemma {:induction false} PostedStays(log: seq<Event>, i: nat)
    requires PhaseOf(log) != Bad && i < |log| && log[i] == Post
    ensures PhaseOf(log) in {Posted, Freed}
    decreases |log|
  {
    var front := log[..|log| - 1];
    assert PhaseOf(log) == Next(PhaseOf(front), log[|log| - 1]);
    if i < |log| - 1 {
      PostedStays(front, i);
    }
  }
}
