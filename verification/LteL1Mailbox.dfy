/** The hand-off of subframes from the L1 receive thread to the L1 transmit thread: one
    place, a mutex and one condition variable for both directions.  `instance_cnt` is
    -1 for an empty and 0 for a full place.  Every lock, test, write, signal and unlock
    is a step of its own, and a sleeping thread may wake up without a signal. */
module LteL1Mailbox {
  import opened Wrappers

  datatype Owner = Free | ByProducer | ByConsumer

  /** A slot stands for its frame, subframe and timestamp. */
  datatype Producer =
    | PIdle
    | PWants(slot: nat)
    | PTesting(slot: nat)
    | PAsleep(slot: nat)
    | PWoken(slot: nat)
    | PFilling(slot: nat)
    | PSignalling
    | PUnlocking

  /** `Leaving` is the last operation of the wait; `seen` is what the thread read when
      it began to run.  `Stuck` waits for a mutex it holds itself. */
  datatype Consumer =
    | CWants
    | CTesting
    | CAsleep
    | CWoken
    | CLeaving
    | CStuck
    | CStarting
    | CRunning(seen: nat)
    | CWantsBack(seen: nat)
    | CClearing(seen: nat)
    | CSignalling
    | CUnlocking

  /** `accepted` are the slots put in the place, `ran` those the consumer has run. */
  datatype State = State(full: bool, slot: nat, owner: Owner, p: Producer, c: Consumer,
                         accepted: seq<nat>, ran: seq<nat>)

  const INIT := State(false, 0, Free, PIdle, CWants, [], [])

  /** How the wait ends: unlocking the mutex, or locking it once more. */
  datatype WaitEnd = Unlocks | LocksAgain

  datatype Step = Offer(slot: nat) | Produce | Consume | ProducerWakes | ConsumerWakes

  predicate Enabled(s: State, step: Step) {
    match step
    case Offer(_) => s.p.PIdle?
    case Produce => !s.p.PIdle? && !s.p.PAsleep? && (s.p.PWants? || s.p.PWoken? ==> s.owner.Free?)
    case Consume => !s.c.CAsleep? && !s.c.CStuck? && (s.c.CWants? || s.c.CWoken? || s.c.CWantsBack? ==> s.owner.Free?)
    case ProducerWakes => s.p.PAsleep?
    case ConsumerWakes => s.c.CAsleep?
  }

  function Apply(end: WaitEnd, s: State, step: Step): State
    requires Enabled(s, step)
  {
    match step
    case Offer(x) => s.(p := PWants(x))
    case Produce => Produced(s)
    case Consume => Consumed(end, s)
    case ProducerWakes => s.(p := PWoken(s.p.slot))
    case ConsumerWakes => s.(c := CWoken)
  }

  /** wakeup_tx */
  function Produced(s: State): State
    requires Enabled(s, Produce)
  {
    match s.p
    case PWants(x) => s.(owner := ByProducer, p := PTesting(x))
    case PWoken(x) => s.(owner := ByProducer, p := PTesting(x))
    case PTesting(x) => if s.full then s.(owner := Free, p := PAsleep(x)) else s.(full := true, p := PFilling(x))
    case PFilling(x) => s.(slot := x, accepted := s.accepted + [x], p := PSignalling)
    case PSignalling => s.(c := if s.c.CAsleep? then CWoken else s.c, p := PUnlocking)
    case PUnlocking => s.(owner := Free, p := PIdle)
  }

  /** L1_thread_tx */
  function Consumed(end: WaitEnd, s: State): State
    requires Enabled(s, Consume)
  {
    match s.c
    case CWants => s.(owner := ByConsumer, c := CTesting)
    case CWoken => s.(owner := ByConsumer, c := CTesting)
    case CTesting => if s.full then s.(c := CLeaving) else s.(owner := Free, c := CAsleep)
    case CLeaving => if end.Unlocks? then s.(owner := Free, c := CStarting) else s.(c := CStuck)
    case CStarting => s.(c := CRunning(s.slot))
    case CRunning(seen) => s.(c := CWantsBack(seen))
    case CWantsBack(seen) => s.(owner := ByConsumer, c := CClearing(seen))
    case CClearing(seen) => s.(ran := s.ran + [seen], full := false, c := CSignalling)
    case CSignalling => s.(p := if s.p.PAsleep? then PWoken(s.p.slot) else s.p, c := CUnlocking)
    case CUnlocking => s.(owner := Free, c := CWants)
  }

  /** The state after a schedule; none if a step was not enabled when its turn came. */
  function After(end: WaitEnd, steps: seq<Step>): Option<State> {
    if steps == [] then Some(INIT)
    else
      match After(end, steps[..|steps| - 1])
      case None => None
      case Some(s) => if Enabled(s, steps[|steps| - 1]) then Some(Apply(end, s, steps[|steps| - 1])) else None
  }

  /** The fields are the consumer's from the end of its wait until it clears the place. */
  predicate Busy(c: Consumer) {
    c.CLeaving? || c.CStuck? || c.CStarting? || c.CRunning? || c.CWantsBack? || c.CClearing?
  }

  predicate Seeing(c: Consumer) {
    c.CRunning? || c.CWantsBack? || c.CClearing?
  }

  ghost predicate Inv(s: State) {
    && (s.owner.ByProducer? <==> s.p.PTesting? || s.p.PFilling? || s.p.PSignalling? || s.p.PUnlocking?)
    && (s.owner.ByConsumer? <==>
          s.c.CTesting? || s.c.CLeaving? || s.c.CStuck? || s.c.CClearing? || s.c.CSignalling? || s.c.CUnlocking?)
    && (s.p.PAsleep? ==> s.full || s.c.CSignalling?)
    && (s.c.CAsleep? ==> !s.full || s.p.PFilling? || s.p.PSignalling?)
    && (Busy(s.c) ==> s.full && !s.p.PFilling?)
    && (s.p.PFilling? ==> s.full)
    && (Seeing(s.c) ==> s.c.seen == s.slot)
    && s.accepted == s.ran + (if s.full && !s.p.PFilling? then [s.slot] else [])
  }

  lemma StepKeepsInv(end: WaitEnd, s: State, step: Step)
    requires Inv(s) && Enabled(s, step)
    ensures Inv(Apply(end, s, step))
  {
  }

  lemma {:induction false} SchedulesKeepInv(end: WaitEnd, steps: seq<Step>)
    requires After(end, steps).Some?
    ensures Inv(After(end, steps).value)
  {
    if steps != [] {
      hide Inv, Apply;
      SchedulesKeepInv(end, steps[..|steps| - 1]);
      StepKeepsInv(end, After(end, steps[..|steps| - 1]).value, steps[|steps| - 1]);
    }
  }

  /** What is run is what was accepted, in order, once each, but for the slot in the
      place; and what the consumer saw when it began is what it finishes. */
  lemma RunsWhatWasAccepted(end: WaitEnd, steps: seq<Step>)
    requires After(end, steps).Some?
    ensures var s := After(end, steps).value;
      && s.accepted == s.ran + (if s.full && !s.p.PFilling? then [s.slot] else [])
      && (Seeing(s.c) ==> s.full && s.slot == s.c.seen)
  {
    SchedulesKeepInv(end, steps);
  }

  /** The slots of the producer's calls. */
  function Offered(steps: seq<Step>): seq<nat> {
    if steps == [] then []
    else
      var step := steps[|steps| - 1];
      Offered(steps[..|steps| - 1]) + if step.Offer? then [step.slot] else []
  }

  /** The slot that the producer has not put in the place yet. */
  function InHand(p: Producer): seq<nat> {
    match p
    case PWants(x) => [x]
    case PTesting(x) => [x]
    case PAsleep(x) => [x]
    case PWoken(x) => [x]
    case PFilling(x) => [x]
    case _ => []
  }

  /** What is accepted is what was offered, in order, but for the slot the producer
      still holds. */
  lemma {:induction false} AcceptsWhatWasOffered(end: WaitEnd, steps: seq<Step>)
    requires After(end, steps).Some?
    ensures var s := After(end, steps).value;
      Offered(steps) == s.accepted + InHand(s.p)
  {
    if steps != [] {
      AcceptsWhatWasOffered(end, steps[..|steps| - 1]);
    }
  }

  /** So every slot offered is run, once and in order, but for the one in the place and
      the one in the producer's hand. */
  lemma ExactlyOnce(end: WaitEnd, steps: seq<Step>)
    requires After(end, steps).Some?
    ensures var s := After(end, steps).value;
      Offered(steps) == s.ran + (if s.full && !s.p.PFilling? then [s.slot] else []) + InHand(s.p)
  {
    AcceptsWhatWasOffered(end, steps);
    RunsWhatWasAccepted(end, steps);
  }

  /** While the consumer has the place no step of either thread changes the fields. */
  lemma FieldsStable(end: WaitEnd, steps: seq<Step>, step: Step)
    requires After(end, steps + [step]).Some?
    ensures After(end, steps).Some?
    ensures var s, s' := After(end, steps).value, After(end, steps + [step]).value;
      Busy(s.c) ==> s'.slot == s.slot && s'.accepted == s.accepted && (s'.full || s.c.CClearing?)
  {
    assert (steps + [step])[..|steps|] == steps;
    SchedulesKeepInv(end, steps);
  }

  /** The two threads never sleep at the same time. */
  lemma NeverBothAsleep(end: WaitEnd, steps: seq<Step>)
    requires After(end, steps).Some?
    ensures !(After(end, steps).value.p.PAsleep? && After(end, steps).value.c.CAsleep?)
  {
    SchedulesKeepInv(end, steps);
  }

  /** With the mutex unlocked at the end of the wait there is always a thread that can
      go on without a spurious wake-up, as long as a slot waits or is in the place. */
  lemma Progress(steps: seq<Step>)
    requires After(Unlocks, steps).Some?
    requires var s := After(Unlocks, steps).value; s.full || !s.p.PIdle?
    ensures Enabled(After(Unlocks, steps).value, Produce) || Enabled(After(Unlocks, steps).value, Consume)
  {
    SchedulesKeepInv(Unlocks, steps);
    NeverStuck(steps);
  }

  lemma {:induction false} NeverStuck(steps: seq<Step>)
    requires After(Unlocks, steps).Some?
    ensures !After(Unlocks, steps).value.c.CStuck?
  {
    if steps != [] {
      NeverStuck(steps[..|steps| - 1]);
    }
  }

  /** What is left to do for the slots at hand, in steps. */
  function ProducerWork(p: Producer): nat {
    match p
    case PIdle => 0
    case PAsleep(_) => 17
    case PTesting(_) => 18
    case PWants(_) => 19
    case PWoken(_) => 19
    case PFilling(_) => 5
    case PSignalling => 4
    case PUnlocking => 1
  }

  function ConsumerWork(c: Consumer): nat {
    match c
    case CAsleep => 0
    case CTesting => 1
    case CWants => 2
    case CWoken => 2
    case CUnlocking => 3
    case CSignalling => 6
    case CClearing(_) => 7
    case CWantsBack(_) => 8
    case CRunning(_) => 9
    case CStarting => 10
    case CLeaving => 11
    case CStuck => 0
  }

  function Work(s: State): nat {
    ProducerWork(s.p) + ConsumerWork(s.c) + if s.full && !Busy(s.c) then 11 else 0
  }

  lemma WorkFalls(s: State, step: Step)
    requires Inv(s) && Enabled(s, step) && (step.Produce? || step.Consume?)
    ensures Work(Apply(Unlocks, s, step)) < Work(s)
  {
  }

  /** Without new slots and spurious wake-ups there is a bounded number of steps. */
  lemma {:induction false} WorkIsBounded(steps: seq<Step>, more: seq<Step>)
    requires After(Unlocks, steps + more).Some?
    requires forall i :: 0 <= i < |more| ==> more[i].Produce? || more[i].Consume?
    ensures After(Unlocks, steps).Some?
    ensures |more| + Work(After(Unlocks, steps + more).value) <= Work(After(Unlocks, steps).value)
  {
    var all := steps + more;
    if more == [] {
      assert all == steps;
    } else {
      hide Work, Apply, Inv, Enabled;
      var front := more[..|more| - 1];
      assert all[..|all| - 1] == steps + front && all[|all| - 1] == more[|more| - 1];
      WorkIsBounded(steps, front);
      SchedulesKeepInv(Unlocks, steps + front);
      EnabledNext(all);
      WorkFalls(After(Unlocks, steps + front).value, all[|all| - 1]);
    }
  }

  lemma EnabledNext(steps: seq<Step>)
    requires steps != [] && After(Unlocks, steps).Some?
    ensures After(Unlocks, steps[..|steps| - 1]).Some?
    ensures var s, step := After(Unlocks, steps[..|steps| - 1]).value, steps[|steps| - 1];
      Enabled(s, step) && After(Unlocks, steps).value == Apply(Unlocks, s, step)
  {
  }

  /** And when none is left every slot offered has been run. */
  lemma AllRunAtRest(steps: seq<Step>)
    requires After(Unlocks, steps).Some?
    requires !Enabled(After(Unlocks, steps).value, Produce) && !Enabled(After(Unlocks, steps).value, Consume)
    ensures After(Unlocks, steps).value.ran == Offered(steps)
  {
    var s := After(Unlocks, steps).value;
    if s.full || !s.p.PIdle? {
      Progress(steps);
    } else {
      ExactlyOnce(Unlocks, steps);
    }
  }

  /** A thread woken for nothing tests again and goes back to sleep. */
  lemma SpuriousWakeUps(end: WaitEnd, s: State)
    requires s.owner.Free?
    ensures s.p.PAsleep? && s.full ==>
      && var t := Apply(end, s, ProducerWakes);
      && Enabled(t, Produce) && Enabled(Produced(t), Produce) && Produced(Produced(t)) == s
    ensures s.c.CAsleep? && !s.full ==>
      && var t := Apply(end, s, ConsumerWakes);
      && Enabled(t, Consume) && Enabled(Consumed(end, t), Consume) && Consumed(end, Consumed(end, t)) == s
  {
  }

  // --------------------------------------------------- the wait as it is written

  /** The wait written with a second lock where the unlock belongs. */
  predicate NotRunning(s: State) {
    && s.ran == []
    && (s.c.CWants? || s.c.CTesting? || s.c.CAsleep? || s.c.CWoken? || s.c.CLeaving? || s.c.CStuck?)
  }

  lemma {:induction false} SecondLockStops(steps: seq<Step>)
    requires After(LocksAgain, steps).Some?
    ensures NotRunning(After(LocksAgain, steps).value)
    ensures |After(LocksAgain, steps).value.accepted| <= 1
  {
    SchedulesKeepInv(LocksAgain, steps);
    if steps != [] {
      SecondLockStops(steps[..|steps| - 1]);
    }
  }

  lemma Go(end: WaitEnd, steps: seq<Step>, s: State, step: Step) returns (steps': seq<Step>, s': State)
    requires After(end, steps) == Some(s) && Enabled(s, step)
    ensures After(end, steps') == Some(s') && s' == Apply(end, s, step)
  {
    steps', s' := steps + [step], Apply(end, s, step);
    assert steps'[..|steps|] == steps;
  }

  /** One slot passed through, step by step. */
  lemma OneSlotFills(end: WaitEnd, x: nat) returns (steps: seq<Step>, s: State)
    ensures After(end, steps) == Some(s) && s == State(true, x, Free, PIdle, CWants, [x], [])
  {
    steps, s := Go(end, [], INIT, Offer(x));
    steps, s := Go(end, steps, s, Produce);
    steps, s := Go(end, steps, s, Produce);
    steps, s := Go(end, steps, s, Produce);
    steps, s := Go(end, steps, s, Produce);
    steps, s := Go(end, steps, s, Produce);
  }

  lemma OneSlotRuns(x: nat) returns (steps: seq<Step>)
    ensures After(Unlocks, steps).Some? && After(Unlocks, steps).value.ran == [x]
  {
    var s;
    steps, s := OneSlotFills(Unlocks, x);
    steps, s := Go(Unlocks, steps, s, Consume);
    steps, s := Go(Unlocks, steps, s, Consume);
    steps, s := Go(Unlocks, steps, s, Consume);
    steps, s := Go(Unlocks, steps, s, Consume);
    steps, s := Go(Unlocks, steps, s, Consume);
    steps, s := Go(Unlocks, steps, s, Consume);
    steps, s := Go(Unlocks, steps, s, Consume);
  }

  /** With the second lock that point is always reached if the consumer goes on. */
  lemma OneSlotSticks(x: nat) returns (steps: seq<Step>)
    ensures After(LocksAgain, steps).Some? && After(LocksAgain, steps).value.c.CStuck?
  {
    var s;
    steps, s := OneSlotFills(LocksAgain, x);
    steps, s := Go(LocksAgain, steps, s, Consume);
    steps, s := Go(LocksAgain, steps, s, Consume);
    steps, s := Go(LocksAgain, steps, s, Consume);
  }

  /** The first slot accepted stops both threads: the consumer waits for the mutex it
      holds, and the producer for the same. */
  lemma SecondLockDeadlocks(steps: seq<Step>)
    requires After(LocksAgain, steps).Some? && After(LocksAgain, steps).value.c.CStuck?
    ensures var s := After(LocksAgain, steps).value;
      |s.accepted| == 1 && !Enabled(s, Consume) && !Enabled(s, Produce)
  {
    SchedulesKeepInv(LocksAgain, steps);
    SecondLockStops(steps);
  }

  /** A slot can ever be run if and only if the wait ends by unlocking. */
  lemma SomethingRunsIff(end: WaitEnd)
    ensures (exists steps :: After(end, steps).Some? && After(end, steps).value.ran != []) <==> end == Unlocks
  {
    if end == Unlocks {
      var steps := OneSlotRuns(0);
      assert After(end, steps).value.ran != [];
    } else {
      forall steps | After(end, steps).Some? ensures After(end, steps).value.ran == [] {
        SecondLockStops(steps);
      }
    }
  }
}
