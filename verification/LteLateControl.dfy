/** Recovery of the LTE transmitter from a late or short burst.  The transmit thread
    reads and writes a shared variable in several places while the receive thread may
    raise a fault at any time; there is no lock.  Each access is a step of its own. */
module LteLateControl {
  import opened Wrappers

  datatype Late = Normal | Terminate | Stop1 | Stop2 | Restart

  datatype Flag = Start | Middle | End | EndNoTimeSpec

  /** What the transmit thread does with a downlink or special subframe. */
  datatype Event = Write(flag: Flag) | Skip

  /** Where the transmit thread is: between subframes; flags chosen; fault seen; value
      read for the switch; about to write; written short; about to raise a fault. */
  datatype Pc =
    | Idle
    | Chosen(flag: Flag)
    | Faulty(flag: Flag)
    | Read(late: Late, flag: Flag)
    | Writing(flag: Flag)
    | Short
    | Raising

  datatype State = State(late: Late, pc: Pc, log: seq<Event>)

  const INIT := State(Normal, Idle, [])

  /** `RxFault` is the receive thread's; `Send(short)` says whether the device took
      fewer samples than asked, with no separate write thread. */
  datatype Step = RxFault | Call(flag: Flag) | Test | Fetch | Store | Send(short: bool) | Recheck | Raise

  predicate Enabled(s: State, step: Step) {
    match step
    case RxFault => true
    case Call(flag) => s.pc.Idle? && flag != EndNoTimeSpec
    case Test => s.pc.Chosen?
    case Fetch => s.pc.Faulty?
    case Store => s.pc.Read?
    case Send(_) => s.pc.Writing?
    case Recheck => s.pc.Short?
    case Raise => s.pc.Raising?
  }

  function Apply(s: State, step: Step): State
    requires Enabled(s, step)
  {
    match step
    case RxFault => s.(late := Terminate)
    case Call(flag) => s.(pc := Chosen(flag))
    case Test => s.(pc := if s.late == Normal then Writing(s.pc.flag) else Faulty(s.pc.flag))
    case Fetch => s.(pc := Read(s.late, s.pc.flag))
    case Store =>
      (match s.pc.late
       case Terminate => s.(late := Stop1, pc := Writing(EndNoTimeSpec))
       case Stop1 => s.(late := Stop2, pc := Idle, log := s.log + [Skip])
       case Stop2 => s.(late := Restart, pc := Idle, log := s.log + [Skip])
       case Restart => s.(late := Normal, pc := Writing(Start))
       case Normal => s.(pc := Writing(s.pc.flag)))
    case Send(short) => s.(log := s.log + [Write(s.pc.flag)], pc := if short then Short else Idle)
    case Recheck => s.(pc := if s.late == Normal then Raising else Idle)
    case Raise => s.(late := Terminate, pc := Idle)
  }

  /** The state after a schedule; none if a step was not enabled when its turn came. */
  function After(s: State, steps: seq<Step>): Option<State> {
    if steps == [] then Some(s)
    else
      match After(s, steps[..|steps| - 1])
      case None => None
      case Some(t) => if Enabled(t, steps[|steps| - 1]) then Some(Apply(t, steps[|steps| - 1])) else None
  }

  /** What may follow what: outside a recovery any burst flag, or the end of the burst
      that begins one; inside, two skips and a start, unless the burst is ended anew. */
  datatype Phase = Sending | Ended | Skipped | SkippedTwice | Wrong

  function Follow(ph: Phase, e: Event): Phase {
    match ph
    case Sending => if e.Skip? then Wrong else if e.flag == EndNoTimeSpec then Ended else Sending
    case Ended => if e.Skip? then Skipped else if e.flag == EndNoTimeSpec then Ended else Wrong
    case Skipped => if e.Skip? then SkippedTwice else if e.flag == EndNoTimeSpec then Ended else Wrong
    case SkippedTwice =>
      if e.Skip? then Wrong
      else if e.flag == EndNoTimeSpec then Ended
      else if e.flag == Start then Sending else Wrong
    case Wrong => Wrong
  }

  function PhaseOf(log: seq<Event>): Phase {
    if log == [] then Sending else Follow(PhaseOf(log[..|log| - 1]), log[|log| - 1])
  }

  /** The value of the shared variable that a phase expects, if no fault is pending. */
  function Expected(ph: Phase): Late {
    match ph
    case Sending => Normal
    case Ended => Stop1
    case Skipped => Stop2
    case SkippedTwice => Restart
    case Wrong => Normal
  }

  predicate Fits(ph: Phase, late: Late) {
    late == Terminate || late == Expected(ph)
  }

  predicate Inv(s: State) {
    var ph := PhaseOf(s.log);
    && ph != Wrong
    && match s.pc
       case Idle => Fits(ph, s.late)
       case Chosen(flag) => Fits(ph, s.late) && flag != EndNoTimeSpec
       case Faulty(_) => Fits(ph, s.late) && s.late != Normal
       case Read(v, _) => Fits(ph, v) && v != Normal
       case Writing(flag) =>
         if flag == EndNoTimeSpec then Fits(Ended, s.late)
         else Fits(Sending, s.late) && (ph == Sending || (ph == SkippedTwice && flag == Start))
       case Short => Fits(ph, s.late)
       case Raising => ph == Sending && Fits(ph, s.late)
  }

  lemma LogGrows(log: seq<Event>, e: Event)
    ensures PhaseOf(log + [e]) == Follow(PhaseOf(log), e)
  {
    assert (log + [e])[..|log|] == log;
  }

  lemma StepKeepsInv(s: State, step: Step)
    requires Inv(s) && Enabled(s, step)
    ensures Inv(Apply(s, step))
  {
    hide PhaseOf;
    LogGrows(s.log, Skip);
    if s.pc.Writing? {
      LogGrows(s.log, Write(s.pc.flag));
    }
  }

  /** Under every interleaving of the two threads, after an end without time the only
      writes before the next start are further such ends, and a start that ends a
      recovery follows an end and exactly two skipped subframes. */
  lemma {:induction false} NeverWrong(steps: seq<Step>)
    requires After(INIT, steps).Some?
    ensures Inv(After(INIT, steps).value) && PhaseOf(After(INIT, steps).value.log) != Wrong
  {
    if steps != [] {
      NeverWrong(steps[..|steps| - 1]);
      StepKeepsInv(After(INIT, steps[..|steps| - 1]).value, steps[|steps| - 1]);
    }
  }

  /** In words of the log: between an end without time and the first start after it
      there is no other write. */
  lemma {:induction false} OnlyEndsUntilStart(log: seq<Event>, i: nat, j: nat)
    requires PhaseOf(log) != Wrong && i < j < |log|
    requires log[i] == Write(EndNoTimeSpec)
    requires forall k :: i < k <= j ==> log[k] != Write(Start)
    ensures log[j] == Skip || log[j] == Write(EndNoTimeSpec)
    ensures PhaseOf(log[..j + 1]) != Sending
  {
    PrefixRight(log, j + 1);
    assert log[..j + 1][..j] == log[..j];
    if i == j - 1 {
      PrefixRight(log, j);
      assert log[..j][..i] == log[..i];
    } else {
      OnlyEndsUntilStart(log, i, j - 1);
    }
  }

  /** And right before a start that follows, an end and two skips. */
  lemma StartAfterTwoSkips(log: seq<Event>, i: nat, j: nat)
    requires PhaseOf(log) != Wrong && i < j < |log|
    requires log[i] == Write(EndNoTimeSpec) && log[j] == Write(Start)
    requires forall k :: i < k < j ==> log[k] != Write(Start)
    ensures j >= i + 3 && log[j - 3..j] == [Write(EndNoTimeSpec), Skip, Skip]
  {
    PrefixRight(log, j + 1);
    PrefixRight(log, j);
    assert log[..j + 1][..j] == log[..j];
    if i < j - 1 {
      OnlyEndsUntilStart(log, i, j - 1);
    }
    assert PhaseOf(log[..j]) == SkippedTwice by {
      assert log[..j][..j - 1] == log[..j - 1];
    }
    LastTwo(log, j);
  }

  lemma LastTwo(log: seq<Event>, j: nat)
    requires j <= |log| && PhaseOf(log[..j]) == SkippedTwice
    ensures j >= 3 && log[j - 3..j] == [Write(EndNoTimeSpec), Skip, Skip]
  {
    assert log[..j][..j - 1] == log[..j - 1];
    assert PhaseOf(log[..j - 1]) == Skipped && log[j - 1] == Skip;
    assert log[..j - 1][..j - 2] == log[..j - 2];
    assert PhaseOf(log[..j - 2]) == Ended && log[j - 2] == Skip;
    assert log[..j - 2][..j - 3] == log[..j - 3];
  }

  lemma {:induction false} PrefixRight(log: seq<Event>, n: nat)
    requires PhaseOf(log) != Wrong && n <= |log|
    ensures PhaseOf(log[..n]) != Wrong
  {
    if n < |log| {
      assert log[..|log| - 1][..n] == log[..n];
      PrefixRight(log[..|log| - 1], n);
    } else {
      assert log[..n] == log;
    }
  }

  // ----------------------------------------------------------- without a new fault

  /** What a fault-free recovery does with the next three subframes. */
  const RECOVERY: seq<Event> := [Skip, Skip, Write(Start)]

  predicate Recovering(s: State, n: nat) {
    var v := if n == 0 then Stop1 else if n == 1 then Stop2 else Restart;
    && n < 3
    && match s.pc
       case Idle => s.late == v
       case Chosen(_) => s.late == v
       case Faulty(_) => s.late == v
       case Read(r, _) => s.late == v && r == v
       case Writing(flag) => n == 2 && flag == Start && s.late == Normal
       case Short => n == 0 && s.late == v
       case Raising => false
  }

  /** After an end without time, if no fault is raised, exactly two downlink or
      special subframes are skipped and the third is sent with a start. */
  lemma {:induction false} TwoSkipsThenStart(s: State, steps: seq<Step>)
    requires After(s, steps).Some? && RxFault !in steps
    requires s.late == Stop1 && (s.pc.Idle? || s.pc.Short?)
    ensures var t := After(s, steps).value;
      && s.log <= t.log
      && var done := t.log[|s.log|..];
         if |done| < 3 then done <= RECOVERY && Recovering(t, |done|) else RECOVERY <= done
  {
    if steps != [] {
      var front := steps[..|steps| - 1];
      var step := steps[|steps| - 1];
      assert step in steps;
      TwoSkipsThenStart(s, front);
      var t := After(s, front).value;
      var t' := Apply(t, step);
      assert t'.log == t.log || t'.log[|s.log|..] == t.log[|s.log|..] + [t'.log[|t.log|]];
    }
  }

  // --------------------------------------------------------------- what faults do

  /** A fault is pending: the next event is the end of the burst. */
  predicate FaultPending(s: State) {
    match s.pc
    case Idle => s.late == Terminate
    case Chosen(_) => s.late == Terminate
    case Faulty(_) => s.late == Terminate
    case Read(v, _) => v == Terminate
    case Writing(flag) => flag == EndNoTimeSpec
    case Short => s.late == Normal || s.late == Terminate
    case Raising => true
  }

  /** However the run goes on, with new faults or without, the burst is ended next. */
  lemma {:induction false} PendingEnds(s: State, steps: seq<Step>)
    requires FaultPending(s) && After(s, steps).Some?
    ensures var t := After(s, steps).value;
      && s.log <= t.log
      && (|t.log| == |s.log| ==> FaultPending(t))
      && (|t.log| > |s.log| ==> t.log[|s.log|] == Write(EndNoTimeSpec))
  {
    if steps != [] {
      PendingEnds(s, steps[..|steps| - 1]);
    }
  }

  /** In every schedule a fault raised while the transmit thread is between subframes,
      or has not yet read the value it acts on, is answered by the end of the burst. */
  lemma FaultEndsBurst(s: State, steps: seq<Step>)
    requires s.pc.Idle? || s.pc.Chosen? || s.pc.Faulty?
    requires After(Apply(s, RxFault), steps).Some?
    ensures var t := After(Apply(s, RxFault), steps).value;
      s.log <= t.log && (|t.log| > |s.log| ==> t.log[|s.log|] == Write(EndNoTimeSpec))
  {
    PendingEnds(Apply(s, RxFault), steps);
  }

  /** So is a short write of a burst that is not being ended. */
  lemma ShortWriteEndsBurst(s: State, steps: seq<Step>)
    requires Inv(s) && s.pc.Writing? && s.pc.flag != EndNoTimeSpec
    requires After(Apply(s, Send(true)), steps).Some?
    ensures var t := After(Apply(s, Send(true)), steps).value;
      && s.log + [Write(s.pc.flag)] <= t.log
      && (|t.log| > |s.log| + 1 ==> t.log[|s.log| + 1] == Write(EndNoTimeSpec))
  {
    PendingEnds(Apply(s, Send(true)), steps);
  }

  /** With no further fault the recovery follows: after the end two skips and a start. */
  lemma {:induction false} FaultRecovers(s: State, steps: seq<Step>)
    requires s.pc.Idle? && s.late == Terminate
    requires After(s, steps).Some? && RxFault !in steps
    ensures var t := After(s, steps).value;
      && s.log <= t.log
      && var done := t.log[|s.log|..];
         if done == [] then FaultPending(t) && !t.pc.Short? && !t.pc.Raising? && (t.pc.Writing? ==> t.late == Stop1)
         else if |done| < 4 then done <= [Write(EndNoTimeSpec)] + RECOVERY && Recovering(t, |done| - 1)
         else [Write(EndNoTimeSpec)] + RECOVERY <= done
  {
    if steps != [] {
      var front := steps[..|steps| - 1];
      var step := steps[|steps| - 1];
      assert step in steps;
      FaultRecovers(s, front);
      var t := After(s, front).value;
      var t' := Apply(t, step);
      assert t'.log == t.log || t'.log[|s.log|..] == t.log[|s.log|..] + [t'.log[|t.log|]];
    }
  }

  /** The flags asked for in the subframes of a schedule. */
  function Asked(steps: seq<Step>): seq<Event> {
    if steps == [] then []
    else
      var step := steps[|steps| - 1];
      Asked(steps[..|steps| - 1]) + if step.Call? then [Write(step.flag)] else []
  }

  /** Without any fault or short write exactly those are written. */
  lemma {:induction false} NoFaultVerbatim(steps: seq<Step>)
    requires After(INIT, steps).Some? && RxFault !in steps && Send(true) !in steps
    ensures var s := After(INIT, steps).value;
      && s.late == Normal
      && (s.pc.Idle? || s.pc.Chosen? || s.pc.Writing?)
      && s.log + (if s.pc.Idle? then [] else [Write(s.pc.flag)]) == Asked(steps)
  {
    if steps != [] {
      var front := steps[..|steps| - 1];
      var step := steps[|steps| - 1];
      assert step in steps;
      NoFaultVerbatim(front);
    }
  }

  // ------------------------------------------------------------ one thread's turn

  /** The steps of a subframe that the receive thread does not disturb. */
  function TurnSteps(late: Late, flag: Flag, short: bool): seq<Step> {
    var front := [Call(flag), Test];
    match late
    case Normal => front + [Send(short)] + if short then [Recheck, Raise] else []
    case Terminate => front + [Fetch, Store, Send(short)] + if short then [Recheck] else []
    case Stop1 => front + [Fetch, Store]
    case Stop2 => front + [Fetch, Store]
    case Restart => front + [Fetch, Store, Send(short)] + if short then [Recheck, Raise] else []
  }

  lemma {:induction false} RunOn(s: State, steps: seq<Step>, more: seq<Step>)
    requires After(s, steps).Some?
    ensures After(s, steps + more) == After(After(s, steps).value, more)
  {
    if more == [] {
      assert steps + more == steps;
    } else {
      assert (steps + more)[..|steps + more| - 1] == steps + more[..|more| - 1];
      RunOn(s, steps, more[..|more| - 1]);
    }
  }

  lemma RunFirst(s: State, step: Step, more: seq<Step>)
    requires Enabled(s, step)
    ensures After(s, [step] + more) == After(Apply(s, step), more)
  {
    assert [step][..0] == [];
    RunOn(s, [step], more);
  }

  /** The same one after another, from the first step on. */
  function RunAlong(s: State, steps: seq<Step>): Option<State>
    decreases |steps|
  {
    if steps == [] then Some(s)
    else if Enabled(s, steps[0]) then RunAlong(Apply(s, steps[0]), steps[1..]) else None
  }

  lemma {:induction false} RunAlongIsRun(s: State, steps: seq<Step>)
    requires RunAlong(s, steps).Some?
    ensures After(s, steps) == RunAlong(s, steps)
    decreases |steps|
  {
    if steps != [] {
      assert steps == [steps[0]] + steps[1..];
      RunFirst(s, steps[0], steps[1..]);
      RunAlongIsRun(Apply(s, steps[0]), steps[1..]);
    }
  }

  lemma {:induction false} RunKeepsInv(s: State, steps: seq<Step>)
    requires Inv(s) && After(s, steps).Some?
    ensures Inv(After(s, steps).value)
  {
    if steps != [] {
      RunKeepsInv(s, steps[..|steps| - 1]);
      StepKeepsInv(After(s, steps[..|steps| - 1]).value, steps[|steps| - 1]);
    }
  }

  class Transmitter {
    var late: Late
    ghost var log: seq<Event>

    ghost function Now(): State
      reads this
    {
      State(late, Idle, log)
    }

    constructor ()
      ensures Now() == INIT
    {
      late, log := Normal, [];
    }

    /** The receive thread found too few samples. */
    method RxShort()
      modifies this
      ensures Now() == Apply(old(Now()), RxFault)
      ensures late == Terminate && log == old(log)
    {
      late := Terminate;
    }

    /** A downlink or special subframe; `sent` is false when nothing is sent. */
    method TxRf(flag: Flag, short: bool) returns (sent: bool, flags: Flag)
      requires flag != EndNoTimeSpec
      modifies this
      ensures After(old(Now()), TurnSteps(old(late), flag, short)) == Some(Now())
      ensures log == old(log) + [if sent then Write(flags) else Skip]
      ensures old(Inv(Now())) ==> Inv(Now())
    {
      ghost var was := Now();
      flags, sent := flag, true;
      if late != Normal {
        match late {
          case Terminate =>
            flags := EndNoTimeSpec;
            late := Stop1;
          case Stop1 =>
            late := Stop2;
            sent := false;
          case Stop2 =>
            late := Restart;
            sent := false;
          case Restart =>
            flags := Start;
            late := Normal;
        }
      }
      if sent {
        log := log + [Write(flags)];
        if short && late == Normal {
          late := Terminate;
        }
      } else {
        log := log + [Skip];
      }
      TurnAlone(was, flag, short);
      RunAlongIsRun(was, TurnSteps(was.late, flag, short));
      if Inv(was) {
        RunKeepsInv(was, TurnSteps(was.late, flag, short));
      }
    }
  }

  /** What a turn comes to. */
  lemma TurnAlone(s: State, flag: Flag, short: bool)
    requires s.pc.Idle? && flag != EndNoTimeSpec
    ensures var e := match s.late
                     case Normal => Write(flag)
                     case Terminate => Write(EndNoTimeSpec)
                     case Stop1 => Skip
                     case Stop2 => Skip
                     case Restart => Write(Start);
      var next := match s.late
                  case Normal => if short then Terminate else Normal
                  case Terminate => Stop1
                  case Stop1 => Stop2
                  case Stop2 => Restart
                  case Restart => if short then Terminate else Normal;
      RunAlong(s, TurnSteps(s.late, flag, short)) == Some(State(next, Idle, s.log + [e]))
  {
    var steps := TurnSteps(s.late, flag, short);
    var s2 := Apply(Apply(s, steps[0]), steps[1]);
    assert RunAlong(s, steps) == RunAlong(s2, steps[2..]) by {
      assert steps[1..][1..] == steps[2..];
    }
    if s.late == Normal {
      var s3 := Apply(s2, steps[2]);
      assert RunAlong(s2, steps[2..]) == RunAlong(s3, steps[3..]) by {
        assert steps[2..][1..] == steps[3..];
      }
      FinishTurn(s3, steps[3..]);
    } else {
      var s4 := Apply(Apply(s2, steps[2]), steps[3]);
      assert RunAlong(s2, steps[2..]) == RunAlong(s4, steps[4..]) by {
        assert steps[2..][1..][1..] == steps[4..];
      }
      if |steps| > 4 {
        var s5 := Apply(s4, steps[4]);
        assert RunAlong(s4, steps[4..]) == RunAlong(s5, steps[5..]) by {
          assert steps[4..][1..] == steps[5..];
        }
        FinishTurn(s5, steps[5..]);
      }
    }
  }

  /** The check after a write. */
  lemma FinishTurn(s: State, steps: seq<Step>)
    requires steps == [] || (s.pc.Short? && s.late != Normal && steps == [Recheck])
          || (s.pc.Short? && s.late == Normal && steps == [Recheck, Raise])
    ensures RunAlong(s, steps) ==
            Some(if steps == [] then s else State(if s.late == Normal then Terminate else s.late, Idle, s.log))
  {
    if steps != [] {
      var s1 := Apply(s, Recheck);
      assert RunAlong(s, steps) == RunAlong(s1, steps[1..]);
      if |steps| == 2 {
        assert steps[1..] == [Raise];
        assert RunAlong(s1, [Raise]) == RunAlong(Apply(s1, Raise), [Raise][1..]);
        assert [Raise][1..] == [];
      }
    }
  }
}
