/** Ordering of the NR UE's transmit tasks.  The tasks run in a thread pool in any
    order; tokens in one FIFO per slot number make them wait for one another.  A
    task pulls one token from its slot's FIFO as the sign that the slot before is
    done (the baton), and one for every DLSCH whose feedback it has to carry; it
    cannot tell the two kinds apart. */
module NrUeTxOrder {
  import opened Modular
  import opened Wrappers

  /** Slots are counted without wrap.  `first` is the first slot received in sync,
      `rxToTx` the distance from a received slot to the one transmitted for it,
      `maxK1` the longest feedback delay, `window` the number of transmit tasks that
      may be unfinished at a time, and `uplink` tells which slots of a frame are
      uplink or mixed. */
  datatype Params = Params(slots: nat, rxToTx: nat, maxK1: nat, window: nat, uplink: seq<bool>, first: nat) {
    predicate Valid() {
      && slots >= 2 && |uplink| == slots
      && rxToTx <= maxK1 < slots + rxToTx
      && window >= 1
    }

    function Base(): nat {
      first + rxToTx
    }
  }

  predicate Uplink(p: Params, slot: nat)
    requires p.Valid()
  {
    p.uplink[Residue(p.slots, slot)]
  }

  /** Tokens carry the slot they are meant for; the code does not look at it. */
  datatype Token = Baton(slot: nat) | Decoded(slot: nat)

  /** A task still has `left` tokens to pull, is in its transmit section, or has
      pushed the baton on. */
  datatype Task = Pulling(left: nat) | Sending | Done

  /** `rx` is the next slot to receive; a task exists for each slot from `Base()` to
      `rx + rxToTx - 1`.  `decoding` holds the DLSCHs not yet decoded, each as the
      slot that carries its feedback, listed by slot number like the FIFOs; `surprises`
      counts the polls that found a token and `sent` the transmit sections entered. */
  datatype State = State(rx: nat, waitFor: seq<nat>, tasks: map<nat, Task>, fifo: seq<seq<Token>>,
                         decoding: seq<seq<nat>>, finished: nat, holder: Option<nat>, surprises: nat, sent: seq<nat>)

  function Init(p: Params): State {
    State(p.first, seq(p.slots, _ => 0), map[], seq(p.slots, _ => []), seq(p.slots, _ => []),
      0, Some(p.Base()), 0, [])
  }

  /** The next slot to finish, if tasks finish in order. */
  function Current(p: Params, s: State): nat {
    p.Base() + s.finished
  }

  function NextSlot(p: Params, s: State): nat {
    s.rx + p.rxToTx
  }

  predicate WellFormed(p: Params, s: State) {
    && p.Valid()
    && |s.waitFor| == |s.fifo| == |s.decoding| == p.slots
  }

  // ------------------------------------------------------------------- steps

  /** One slot received with or without a DLSCH, and its task started; a DLSCH
      decoded; a token pulled; the poll before the transmit section; the baton
      pushed on. */
  datatype Step =
    | Receive(k1: Option<nat>)
    | Decode(r: nat, i: nat)
    | Pull(slot: nat)
    | Poll(slot: nat)
    | Finish(slot: nat)

  predicate Enabled(p: Params, s: State, step: Step)
    requires WellFormed(p, s)
  {
    match step
    case Receive(k1) =>
      && NextSlot(p, s) + 1 <= Current(p, s) + p.window
      && (k1.Some? ==> p.rxToTx <= k1.value <= p.maxK1 && Uplink(p, s.rx + k1.value))
    case Decode(r, i) => r < p.slots && i < |s.decoding[r]|
    case Pull(m) => m in s.tasks && s.tasks[m].Pulling? && s.tasks[m].left > 0 && s.fifo[Residue(p.slots, m)] != []
    case Poll(m) => m in s.tasks && s.tasks[m] == Pulling(0) && Uplink(p, m)
    case Finish(m) => m in s.tasks && (s.tasks[m].Sending? || (s.tasks[m] == Pulling(0) && !Uplink(p, m)))
  }

  function Apply(p: Params, s: State, step: Step): State
    requires WellFormed(p, s) && Enabled(p, s, step)
  {
    match step
    case Receive(k1) => StartTask(p, CountDlsch(p, s, k1))
    case Decode(r, i) =>
      s.(decoding := s.decoding[r := s.decoding[r][..i] + s.decoding[r][i + 1..]],
         fifo := s.fifo[r := s.fifo[r] + [Decoded(s.decoding[r][i])]])
    case Pull(m) =>
      var r := Residue(p.slots, m);
      s.(fifo := s.fifo[r := s.fifo[r][1..]],
         tasks := s.tasks[m := Pulling(s.tasks[m].left - 1)],
         holder := if s.fifo[r][0].Baton? then Some(m) else s.holder)
    case Poll(m) =>
      var r := Residue(p.slots, m);
      var t := s.(tasks := s.tasks[m := Sending], sent := s.sent + [m]);
      if s.fifo[r] == [] then t else t.(fifo := s.fifo[r := s.fifo[r][1..]], surprises := s.surprises + 1)
    case Finish(m) =>
      var r := Residue(p.slots, m + 1);
      s.(tasks := s.tasks[m := Done], fifo := s.fifo[r := s.fifo[r] + [Baton(m + 1)]],
         finished := s.finished + 1, holder := None)
  }

  /** A DLSCH received is first counted for the slot of its feedback. */
  function CountDlsch(p: Params, s: State, k1: Option<nat>): State
    requires WellFormed(p, s)
  {
    match k1
    case None => s
    case Some(k) =>
      var r := Residue(p.slots, s.rx + k);
      s.(waitFor := s.waitFor[r := s.waitFor[r] + 1], decoding := s.decoding[r := s.decoding[r] + [s.rx + k]])
  }

  /** Then the new task takes over the count of its own slot.  The first task of a
      run has no baton to wait for. */
  function StartTask(p: Params, s: State): State
    requires WellFormed(p, s)
  {
    var m := NextSlot(p, s);
    var r := Residue(p.slots, m);
    var left := (if s.rx == p.first then 0 else 1) + if Uplink(p, m) then s.waitFor[r] else 0;
    s.(rx := s.rx + 1, tasks := s.tasks[m := Pulling(left)], waitFor := s.waitFor[r := 0])
  }

  /** The state after a schedule, an arbitrary sequence of steps; none if a step
      was not enabled when its turn came. */
  function After(p: Params, steps: seq<Step>): (s: Option<State>)
    requires p.Valid()
    ensures s.Some? ==> WellFormed(p, s.value)
  {
    if steps == [] then Some(Init(p))
    else
      match After(p, steps[..|steps| - 1])
      case None => None
      case Some(s) => if Enabled(p, s, steps[|steps| - 1]) then Some(Apply(p, s, steps[|steps| - 1])) else None
  }

  ghost predicate NoUplink(p: Params)
    requires p.Valid()
  {
    forall slot: nat :: !Uplink(p, slot)
  }

  /** At most one task per FIFO is unfinished at a time, and so few that tokens with the
      longest delay come at most `slack` slots early round the FIFOs; or there is no
      feedback at all. */
  ghost predicate Fits(p: Params, slack: nat)
    requires p.Valid()
  {
    p.window <= p.slots && (p.window <= p.slots + p.rxToTx - p.maxK1 + slack || NoUplink(p))
  }

  // --------------------------------------------------------------- the order

  /** A transmit section runs only when all earlier tasks have pushed the baton. */
  ghost predicate InOrder(s: State) {
    forall m, m' :: m in s.tasks && m' in s.tasks && m' < m && (s.tasks[m].Sending? || s.tasks[m].Done?)
      ==> s.tasks[m'].Done?
  }

  /** Tokens in the FIFO of a slot number, or still to come from decoding. */
  function Avail(s: State, r: nat): nat
    requires r < |s.fifo| && r < |s.decoding|
  {
    |s.fifo[r]| + |s.decoding[r]|
  }

  function Left(t: Task): nat {
    match t
    case Pulling(left) => left
    case Sending => 0
    case Done => 0
  }

  ghost predicate Shape(p: Params, s: State)
    requires WellFormed(p, s)
  {
    var cur, next := Current(p, s), NextSlot(p, s);
    && s.rx >= p.first && cur <= next <= cur + p.window && p.window <= p.slots
    && (forall m :: m in s.tasks <==> p.Base() <= m < next)
    && (forall m :: m in s.tasks && m < cur ==> s.tasks[m].Done?)
    && (forall m :: m in s.tasks && m == cur ==> !s.tasks[m].Done?)
    && (forall m :: m in s.tasks && m > cur ==> s.tasks[m].Pulling? && s.tasks[m].left > 0)
  }

  /** Tokens to be had for slot `m` against those its task asks for: only the
      current task can get all it needs, a later one lacks at least the baton. */
  predicate Scarce(p: Params, s: State, m: nat)
    requires WellFormed(p, s)
  {
    var r := Residue(p.slots, m);
    if m !in s.tasks then
      Avail(s, r) <= s.waitFor[r] + if m == Current(p, s) && s.finished > 0 then 1 else 0
    else if m == Current(p, s) then
      Avail(s, r) <= Left(s.tasks[m]) + s.waitFor[r]
    else
      Avail(s, r) + 1 <= Left(s.tasks[m]) && s.waitFor[r] == 0
  }

  /** Feedback is awaited in uplink slots only. */
  predicate UplinkOnly(p: Params, s: State)
    requires WellFormed(p, s)
  {
    forall r :: 0 <= r < p.slots && s.waitFor[r] > 0 ==> p.uplink[r]
  }

  ghost predicate OrderInv(p: Params, s: State)
    requires WellFormed(p, s)
  {
    && Shape(p, s)
    && UplinkOnly(p, s)
    && forall m: nat :: Current(p, s) <= m < Current(p, s) + p.slots ==> Scarce(p, s, m)
  }

  lemma ShapeGivesOrder(p: Params, s: State)
    requires WellFormed(p, s) && Shape(p, s)
    ensures InOrder(s)
  {
    forall m, m' | m in s.tasks && m' in s.tasks && m' < m && (s.tasks[m].Sending? || s.tasks[m].Done?)
      ensures s.tasks[m'].Done?
    {
      assert m <= Current(p, s);
    }
  }

  lemma InitOrder(p: Params)
    requires p.Valid() && p.window <= p.slots
    ensures OrderInv(p, Init(p))
  {
  }

  lemma CountKeepsOrder(p: Params, s: State, k: nat)
    requires WellFormed(p, s) && OrderInv(p, s) && Enabled(p, s, Receive(Some(k)))
    requires Fits(p, 1)
    ensures OrderInv(p, CountDlsch(p, s, Some(k)))
  {
    hide Residue;
    var s' := CountDlsch(p, s, Some(k));
    forall m: nat | Current(p, s) <= m < Current(p, s) + p.slots
      ensures Scarce(p, s', m)
    {
      assert Scarce(p, s, m);
      OwnResidue(p.slots, m, s.rx + k);
    }
  }

  lemma StartKeepsOrder(p: Params, s: State)
    requires WellFormed(p, s) && OrderInv(p, s) && Enabled(p, s, Receive(None))
    ensures OrderInv(p, StartTask(p, s))
  {
    hide Residue;
    var s' := StartTask(p, s);
    forall m: nat | Current(p, s) <= m < Current(p, s) + p.slots
      ensures Scarce(p, s', m)
    {
      assert Scarce(p, s, m);
      OwnResidue(p.slots, m, NextSlot(p, s));
    }
  }

  lemma DecodeKeepsOrder(p: Params, s: State, r: nat, i: nat)
    requires WellFormed(p, s) && OrderInv(p, s) && Enabled(p, s, Decode(r, i))
    ensures OrderInv(p, Apply(p, s, Decode(r, i)))
  {
    hide Residue;
    var s' := Apply(p, s, Decode(r, i));
    forall m: nat | Current(p, s) <= m < Current(p, s) + p.slots
      ensures Scarce(p, s', m)
    {
      assert Scarce(p, s, m);
    }
  }

  lemma PullKeepsOrder(p: Params, s: State, m: nat)
    requires WellFormed(p, s) && OrderInv(p, s) && Enabled(p, s, Pull(m))
    ensures OrderInv(p, Apply(p, s, Pull(m)))
  {
    hide Residue;
    var s' := Apply(p, s, Pull(m));
    assert Scarce(p, s, m);
    forall l: nat | Current(p, s) <= l < Current(p, s) + p.slots
      ensures Scarce(p, s', l)
    {
      assert Scarce(p, s, l);
      OwnResidue(p.slots, l, m);
    }
  }

  lemma PollKeepsOrder(p: Params, s: State, m: nat)
    requires WellFormed(p, s) && OrderInv(p, s) && Enabled(p, s, Poll(m))
    ensures OrderInv(p, Apply(p, s, Poll(m)))
  {
    hide Residue;
    var s' := Apply(p, s, Poll(m));
    forall l: nat | Current(p, s) <= l < Current(p, s) + p.slots
      ensures Scarce(p, s', l)
    {
      assert Scarce(p, s, l);
      OwnResidue(p.slots, l, m);
    }
  }

  lemma FinishKeepsOrder(p: Params, s: State, m: nat)
    requires WellFormed(p, s) && OrderInv(p, s) && Enabled(p, s, Finish(m))
    ensures OrderInv(p, Apply(p, s, Finish(m)))
  {
    hide Residue;
    var s' := Apply(p, s, Finish(m));
    assert m == Current(p, s);
    forall l: nat | m + 1 <= l < m + 1 + p.slots
      ensures Scarce(p, s', l)
    {
      assert Scarce(p, s, if l == m + p.slots then m else l);
      OwnResidue(p.slots, m, m + 1);
      OwnResidue(p.slots, l, m + 1);
    }
  }

  lemma StepKeepsOrder(p: Params, s: State, step: Step)
    requires WellFormed(p, s) && OrderInv(p, s) && Enabled(p, s, step)
    requires Fits(p, 1)
    ensures OrderInv(p, Apply(p, s, step))
  {
    match step
    case Receive(k1) =>
      if k1.Some? {
        CountKeepsOrder(p, s, k1.value);
      }
      StartKeepsOrder(p, CountDlsch(p, s, k1));
    case Decode(r, i) => DecodeKeepsOrder(p, s, r, i);
    case Pull(m) => PullKeepsOrder(p, s, m);
    case Poll(m) => PollKeepsOrder(p, s, m);
    case Finish(m) => FinishKeepsOrder(p, s, m);
  }

  // ---------------------------------------------------------------- the baton

  predicate BatonAt(s: State, r: nat, i: nat) {
    r < |s.fifo| && i < |s.fifo[r]| && s.fifo[r][i].Baton?
  }

  /** Tokens that the task of slot `m` will still pull, as far as its count goes. */
  function Claim(p: Params, s: State, m: nat): nat
    requires WellFormed(p, s)
  {
    if m in s.tasks then Left(s.tasks[m]) else s.waitFor[Residue(p.slots, m)] + 1
  }

  /** The baton is with the current task, or lies in its FIFO among the tokens that
      the task will pull. */
  ghost predicate BatonOf(p: Params, s: State)
    requires WellFormed(p, s)
  {
    var cur := Current(p, s);
    var r := Residue(p.slots, cur);
    if s.holder.Some? then s.holder.value == cur && forall i: nat :: !BatonAt(s, r, i)
    else exists i: nat :: (
        && i < Claim(p, s, cur) && BatonAt(s, r, i) && s.fifo[r][i].slot == cur
        && forall j: nat :: BatonAt(s, r, j) ==> j == i)
  }

  ghost predicate NoBatonOf(p: Params, s: State, m: nat)
    requires WellFormed(p, s)
  {
    forall i: nat :: !BatonAt(s, Residue(p.slots, m), i)
  }

  ghost predicate BatonInv(p: Params, s: State)
    requires WellFormed(p, s)
  {
    && BatonOf(p, s)
    && (s.rx == p.first ==> s.holder.Some?)
    && forall m: nat :: Current(p, s) < m < Current(p, s) + p.slots ==> NoBatonOf(p, s, m)
  }

  lemma InitBaton(p: Params)
    requires p.Valid()
    ensures BatonInv(p, Init(p))
  {
  }

  lemma CountKeepsBaton(p: Params, s: State, k: nat)
    requires WellFormed(p, s) && OrderInv(p, s) && BatonInv(p, s) && Enabled(p, s, Receive(Some(k)))
    ensures BatonInv(p, CountDlsch(p, s, Some(k)))
  {
    hide Residue;
    var s' := CountDlsch(p, s, Some(k));
    assert s'.fifo == s.fifo;
    assert forall r: nat, i: nat :: BatonAt(s', r, i) == BatonAt(s, r, i);
    forall m: nat | Current(p, s) < m < Current(p, s) + p.slots ensures NoBatonOf(p, s', m) {
      assert NoBatonOf(p, s, m);
    }
  }

  lemma StartKeepsBaton(p: Params, s: State)
    requires WellFormed(p, s) && OrderInv(p, s) && BatonInv(p, s) && Enabled(p, s, Receive(None))
    ensures BatonInv(p, StartTask(p, s))
  {
    hide Residue;
    var s' := StartTask(p, s);
    assert forall r: nat, i: nat :: BatonAt(s', r, i) == BatonAt(s, r, i);
    forall m: nat | Current(p, s) < m < Current(p, s) + p.slots ensures NoBatonOf(p, s', m) {
      assert NoBatonOf(p, s, m);
    }
  }

  lemma DecodeKeepsBaton(p: Params, s: State, r: nat, i: nat)
    requires WellFormed(p, s) && OrderInv(p, s) && BatonInv(p, s) && Enabled(p, s, Decode(r, i))
    ensures BatonInv(p, Apply(p, s, Decode(r, i)))
  {
    hide Residue;
    var s' := Apply(p, s, Decode(r, i));
    forall r': nat, j: nat ensures BatonAt(s', r', j) == BatonAt(s, r', j) {
    }
    forall m: nat | Current(p, s) < m < Current(p, s) + p.slots ensures NoBatonOf(p, s', m) {
      assert NoBatonOf(p, s, m);
    }
    if s.holder.None? {
      var cr := Residue(p.slots, Current(p, s));
      var j: nat :| j < Claim(p, s, Current(p, s)) && BatonAt(s, cr, j)
        && s.fifo[cr][j].slot == Current(p, s) && forall k: nat :: BatonAt(s, cr, k) ==> k == j;
      assert BatonAt(s', cr, j);
    }
  }

  lemma PullKeepsBaton(p: Params, s: State, m: nat)
    requires WellFormed(p, s) && OrderInv(p, s) && BatonInv(p, s) && Enabled(p, s, Pull(m))
    ensures BatonInv(p, Apply(p, s, Pull(m)))
  {
    hide Residue;
    var s' := Apply(p, s, Pull(m));
    var cur, r := Current(p, s), Residue(p.slots, m);
    forall r': nat, j: nat ensures BatonAt(s', r', j) == BatonAt(s, r', if r' == r then j + 1 else j) {
    }
    forall l: nat | cur < l < cur + p.slots ensures NoBatonOf(p, s', l) {
      assert NoBatonOf(p, s, l);
    }
    OwnResidue(p.slots, cur, m);
    assert m != cur ==> NoBatonOf(p, s, m);
    assert BatonAt(s, r, 0) <==> s.fifo[r][0].Baton?;
    if s.holder.None? {
      var cr := Residue(p.slots, cur);
      var j: nat :| j < Claim(p, s, cur) && BatonAt(s, cr, j)
        && s.fifo[cr][j].slot == cur && forall k: nat :: BatonAt(s, cr, k) ==> k == j;
      if m != cur {
        assert BatonAt(s', cr, j);
      } else if j > 0 {
        assert BatonAt(s', cr, j - 1);
      }
    }
  }

  lemma PollKeepsBaton(p: Params, s: State, m: nat)
    requires WellFormed(p, s) && OrderInv(p, s) && BatonInv(p, s) && Enabled(p, s, Poll(m))
    ensures BatonInv(p, Apply(p, s, Poll(m)))
  {
    hide Residue;
    var s' := Apply(p, s, Poll(m));
    var r := Residue(p.slots, m);
    assert m == Current(p, s) && s.holder.Some?;
    forall r': nat, j: nat
      ensures BatonAt(s', r', j) == BatonAt(s, r', if r' == r && s.fifo[r] != [] then j + 1 else j)
    {
    }
    forall l: nat | m < l < m + p.slots ensures NoBatonOf(p, s', l) {
      assert NoBatonOf(p, s, l);
    }
  }

  lemma FinishKeepsBaton(p: Params, s: State, m: nat)
    requires WellFormed(p, s) && OrderInv(p, s) && BatonInv(p, s) && Enabled(p, s, Finish(m))
    ensures BatonInv(p, Apply(p, s, Finish(m)))
  {
    hide Residue;
    var s' := Apply(p, s, Finish(m));
    var r := Residue(p.slots, m + 1);
    var n := |s.fifo[r]|;
    assert m == Current(p, s) && s.holder.Some?;
    forall r': nat, j: nat ensures BatonAt(s', r', j) <==> BatonAt(s, r', j) || (r' == r && j == n) {
    }
    assert NoBatonOf(p, s, m + 1);
    assert Scarce(p, s, m + 1);
    OwnResidue(p.slots, m, m + 1);
    assert BatonAt(s', r, n);
    forall l: nat | m + 1 < l < m + 1 + p.slots ensures NoBatonOf(p, s', l) {
      if l == m + p.slots {
        OwnResidue(p.slots, m, m);
      } else {
        assert NoBatonOf(p, s, l);
      }
      OwnResidue(p.slots, l, m + 1);
    }
  }

  lemma StepKeepsBaton(p: Params, s: State, step: Step)
    requires WellFormed(p, s) && OrderInv(p, s) && BatonInv(p, s) && Enabled(p, s, step) && Fits(p, 1)
    ensures BatonInv(p, Apply(p, s, step))
  {
    match step
    case Receive(k1) =>
      if k1.Some? {
        CountKeepsOrder(p, s, k1.value);
        CountKeepsBaton(p, s, k1.value);
      }
      StartKeepsBaton(p, CountDlsch(p, s, k1));
    case Decode(r, i) => DecodeKeepsBaton(p, s, r, i);
    case Pull(m) => PullKeepsBaton(p, s, m);
    case Poll(m) => PollKeepsBaton(p, s, m);
    case Finish(m) => FinishKeepsBaton(p, s, m);
  }

  // ------------------------------------------------------- the transmit sections

  /** The uplink and mixed slots from the first transmit slot up to `end`. */
  function UplinkSlots(p: Params, end: nat): seq<nat>
    requires p.Valid()
  {
    if end <= p.Base() then []
    else UplinkSlots(p, end - 1) + if Uplink(p, end - 1) then [end - 1] else []
  }

  /** The sections entered are those of all uplink and mixed slots before the current
      one, and its own while it is sending. */
  ghost predicate SentInv(p: Params, s: State)
    requires WellFormed(p, s)
  {
    var cur := Current(p, s);
    var sending := cur in s.tasks && s.tasks[cur].Sending?;
    && s.sent == UplinkSlots(p, cur) + (if sending then [cur] else [])
    && (sending ==> Uplink(p, cur))
  }

  lemma InitSent(p: Params)
    requires p.Valid()
    ensures SentInv(p, Init(p))
  {
  }

  lemma StepKeepsSent(p: Params, s: State, step: Step)
    requires WellFormed(p, s) && Shape(p, s) && SentInv(p, s) && Enabled(p, s, step)
    ensures SentInv(p, Apply(p, s, step))
  {
    hide Residue;
    var s', cur := Apply(p, s, step), Current(p, s);
    match step
    case Receive(_) => assert s'.sent == s.sent;
    case Decode(_, _) => assert s'.tasks == s.tasks;
    case Pull(_) => assert s'.sent == s.sent;
    case Poll(m) =>
      assert m == cur;
      assert UplinkSlots(p, cur) + [] == UplinkSlots(p, cur);
    case Finish(m) =>
      assert m == cur && UplinkSlots(p, cur + 1) == UplinkSlots(p, cur) + if Uplink(p, cur) then [cur] else [];
  }

  /** Under every schedule the transmit sections run in slot order, one for every uplink
      or mixed slot and no other. */
  lemma {:induction false} SchedulesKeepOrder(p: Params, steps: seq<Step>)
    requires p.Valid() && After(p, steps).Some? && Fits(p, 1)
    ensures OrderInv(p, After(p, steps).value) && InOrder(After(p, steps).value)
    ensures BatonInv(p, After(p, steps).value) && SentInv(p, After(p, steps).value)
  {
    assert p.window <= p.slots;
    hide OrderInv, BatonInv, SentInv, Enabled, Apply, Shape, Fits;
    if steps == [] {
      InitOrder(p);
      InitBaton(p);
      InitSent(p);
    } else {
      var front := steps[..|steps| - 1];
      SchedulesKeepOrder(p, front);
      StepKeepsOrder(p, After(p, front).value, steps[|steps| - 1]);
      StepKeepsBaton(p, After(p, front).value, steps[|steps| - 1]);
      OrderGives(p, After(p, front).value);
      StepKeepsSent(p, After(p, front).value, steps[|steps| - 1]);
    }
    OrderGives(p, After(p, steps).value);
  }

  lemma OrderGives(p: Params, s: State)
    requires WellFormed(p, s) && OrderInv(p, s)
    ensures Shape(p, s) && InOrder(s)
  {
    ShapeGivesOrder(p, s);
  }

  /** At any time there is one baton: with the current task, or at one place of one
      FIFO, that of the current slot. */
  lemma OneBaton(p: Params, steps: seq<Step>)
    requires p.Valid() && After(p, steps).Some? && Fits(p, 1)
    ensures var s := After(p, steps).value;
      && (s.holder.Some? ==> s.holder.value == Current(p, s) && forall r: nat, i: nat :: !BatonAt(s, r, i))
      && (s.holder.None? ==> exists i: nat :: (
            && BatonAt(s, Residue(p.slots, Current(p, s)), i)
            && forall r: nat, j: nat :: BatonAt(s, r, j) ==> r == Residue(p.slots, Current(p, s)) && j == i))
  {
    hide Residue, OrderInv, InOrder, Fits;
    SchedulesKeepOrder(p, steps);
    var s := After(p, steps).value;
    var cur := Current(p, s);
    forall r: nat, j: nat | BatonAt(s, r, j) ensures r == Residue(p.slots, cur) {
      var m := WithResidue(p.slots, cur, r);
      assert m != cur ==> NoBatonOf(p, s, m);
    }
    if s.holder.None? {
      var i: nat :| BatonAt(s, Residue(p.slots, cur), i)
        && forall j: nat :: BatonAt(s, Residue(p.slots, cur), j) ==> j == i;
      assert BatonAt(s, Residue(p.slots, cur), i);
    }
  }

  // ------------------------------------------------------- every token its own

  /** Equality where `Scarce` has a bound: the tokens a task asks for are all in its
      FIFO, still being decoded, or the baton that is yet to come. */
  predicate Exact(p: Params, s: State, m: nat)
    requires WellFormed(p, s)
  {
    var r := Residue(p.slots, m);
    if m !in s.tasks then
      Avail(s, r) == s.waitFor[r] + if m == Current(p, s) && s.finished > 0 then 1 else 0
    else
      Avail(s, r) + (if m == Current(p, s) then 0 else 1) == Left(s.tasks[m]) && s.waitFor[r] == 0
  }

  /** The FIFO of a slot holds tokens for that slot only, and no baton before its turn. */
  predicate OwnTokens(p: Params, s: State, m: nat)
    requires WellFormed(p, s)
  {
    var r := Residue(p.slots, m);
    && (forall t :: t in s.fifo[r] ==> t.slot == m && (t.Baton? ==> m == Current(p, s)))
    && (forall l :: l in s.decoding[r] ==> l == m)
  }

  ghost predicate ExactInv(p: Params, s: State)
    requires WellFormed(p, s)
  {
    && OrderInv(p, s)
    && (forall m: nat :: Current(p, s) <= m < Current(p, s) + p.slots ==> Exact(p, s, m))
    && (forall m: nat :: Current(p, s) <= m < Current(p, s) + p.slots ==> OwnTokens(p, s, m))
    && s.surprises == 0
  }

  lemma InitExact(p: Params)
    requires p.Valid() && p.window <= p.slots
    ensures ExactInv(p, Init(p))
  {
    InitOrder(p);
  }

  lemma CountKeepsExact(p: Params, s: State, k: nat)
    requires WellFormed(p, s) && ExactInv(p, s) && Enabled(p, s, Receive(Some(k)))
    requires Fits(p, 0)
    ensures ExactInv(p, CountDlsch(p, s, Some(k)))
  {
    hide Residue;
    var s' := CountDlsch(p, s, Some(k));
    CountKeepsOrder(p, s, k);
    forall m: nat | Current(p, s) <= m < Current(p, s) + p.slots
      ensures Exact(p, s', m) && OwnTokens(p, s', m)
    {
      assert Exact(p, s, m) && OwnTokens(p, s, m);
      OwnResidue(p.slots, m, s.rx + k);
    }
  }

  lemma StartKeepsExact(p: Params, s: State)
    requires WellFormed(p, s) && ExactInv(p, s) && Enabled(p, s, Receive(None))
    ensures ExactInv(p, StartTask(p, s))
  {
    hide Residue;
    var s' := StartTask(p, s);
    StartKeepsOrder(p, s);
    forall m: nat | Current(p, s) <= m < Current(p, s) + p.slots
      ensures Exact(p, s', m) && OwnTokens(p, s', m)
    {
      assert Exact(p, s, m) && OwnTokens(p, s, m);
      OwnResidue(p.slots, m, NextSlot(p, s));
    }
  }

  lemma DecodeKeepsExact(p: Params, s: State, r: nat, i: nat)
    requires WellFormed(p, s) && ExactInv(p, s) && Enabled(p, s, Decode(r, i))
    ensures ExactInv(p, Apply(p, s, Decode(r, i)))
  {
    hide Residue;
    var s' := Apply(p, s, Decode(r, i));
    DecodeKeepsOrder(p, s, r, i);
    assert s.decoding[r][i] in s.decoding[r];
    assert forall l :: l in s'.decoding[r] ==> l in s.decoding[r];
    forall m: nat | Current(p, s) <= m < Current(p, s) + p.slots
      ensures Exact(p, s', m) && OwnTokens(p, s', m)
    {
      assert Exact(p, s, m) && OwnTokens(p, s, m);
    }
  }

  lemma PullKeepsExact(p: Params, s: State, m: nat)
    requires WellFormed(p, s) && ExactInv(p, s) && Enabled(p, s, Pull(m))
    ensures ExactInv(p, Apply(p, s, Pull(m)))
  {
    hide Residue;
    var s' := Apply(p, s, Pull(m));
    PullKeepsOrder(p, s, m);
    forall l: nat | Current(p, s) <= l < Current(p, s) + p.slots
      ensures Exact(p, s', l) && OwnTokens(p, s', l)
    {
      assert Exact(p, s, l) && OwnTokens(p, s, l);
      OwnResidue(p.slots, l, m);
    }
  }

  lemma PollKeepsExact(p: Params, s: State, m: nat)
    requires WellFormed(p, s) && ExactInv(p, s) && Enabled(p, s, Poll(m))
    ensures s.fifo[Residue(p.slots, m)] == []
    ensures ExactInv(p, Apply(p, s, Poll(m)))
  {
    hide Residue;
    var s' := Apply(p, s, Poll(m));
    PollKeepsOrder(p, s, m);
    assert m == Current(p, s) && Exact(p, s, m);
    forall l: nat | Current(p, s) <= l < Current(p, s) + p.slots
      ensures Exact(p, s', l) && OwnTokens(p, s', l)
    {
      assert Exact(p, s, l) && OwnTokens(p, s, l);
      OwnResidue(p.slots, l, m);
    }
  }

  lemma FinishKeepsExact(p: Params, s: State, m: nat)
    requires WellFormed(p, s) && ExactInv(p, s) && Enabled(p, s, Finish(m))
    ensures ExactInv(p, Apply(p, s, Finish(m)))
  {
    hide Residue;
    var s' := Apply(p, s, Finish(m));
    FinishKeepsOrder(p, s, m);
    assert m == Current(p, s) && Exact(p, s, m);
    forall l: nat | m + 1 <= l < m + 1 + p.slots
      ensures Exact(p, s', l) && OwnTokens(p, s', l)
    {
      var k := if l == m + p.slots then m else l;
      assert Exact(p, s, k) && OwnTokens(p, s, k);
      OwnResidue(p.slots, m, m + 1);
      OwnResidue(p.slots, l, m + 1);
    }
    assert OwnTokens(p, s, m + 1);
  }

  lemma StepKeepsExact(p: Params, s: State, step: Step)
    requires WellFormed(p, s) && ExactInv(p, s) && Enabled(p, s, step)
    requires Fits(p, 0)
    ensures ExactInv(p, Apply(p, s, step))
  {
    match step
    case Receive(k1) =>
      if k1.Some? {
        CountKeepsExact(p, s, k1.value);
      }
      StartKeepsExact(p, CountDlsch(p, s, k1));
    case Decode(r, i) => DecodeKeepsExact(p, s, r, i);
    case Pull(m) => PullKeepsExact(p, s, m);
    case Poll(m) => PollKeepsExact(p, s, m);
    case Finish(m) => FinishKeepsExact(p, s, m);
  }

  lemma {:induction false} SchedulesKeepExact(p: Params, steps: seq<Step>)
    requires p.Valid() && After(p, steps).Some?
    requires Fits(p, 0)
    ensures ExactInv(p, After(p, steps).value)
  {
    if steps == [] {
      InitExact(p);
    } else {
      var front := steps[..|steps| - 1];
      SchedulesKeepExact(p, front);
      StepKeepsExact(p, After(p, front).value, steps[|steps| - 1]);
    }
  }

  /** A task pulls its own tokens only, and its poll finds nothing. */
  lemma PullsOwnToken(p: Params, steps: seq<Step>, m: nat)
    requires p.Valid() && After(p, steps).Some?
    requires Fits(p, 0)
    requires Enabled(p, After(p, steps).value, Pull(m))
    ensures After(p, steps).value.fifo[Residue(p.slots, m)][0].slot == m
  {
    SchedulesKeepExact(p, steps);
    assert OwnTokens(p, After(p, steps).value, m);
  }

  /** While a task is unfinished something other than a reception can happen: the
      tokens it waits for are there, being decoded, or a matter of the tasks before. */
  lemma NoDeadlock(p: Params, steps: seq<Step>)
    requires p.Valid() && After(p, steps).Some?
    requires Fits(p, 0)
    requires Current(p, After(p, steps).value) in After(p, steps).value.tasks
    ensures exists step: Step :: !step.Receive? && Enabled(p, After(p, steps).value, step)
  {
    SchedulesKeepExact(p, steps);
    var s := After(p, steps).value;
    var cur := Current(p, s);
    assert Exact(p, s, cur);
    var r := Residue(p.slots, cur);
    if Left(s.tasks[cur]) == 0 {
      if s.tasks[cur].Pulling? && Uplink(p, cur) {
        assert Enabled(p, s, Poll(cur));
      } else {
        assert Enabled(p, s, Finish(cur));
      }
    } else if s.fifo[r] != [] {
      assert Enabled(p, s, Pull(cur));
    } else {
      assert Enabled(p, s, Decode(r, 0));
    }
  }

  // ------------------------------------------------------- the bounds are exact

  ghost predicate PollsFindNothing(p: Params)
    requires p.Valid()
  {
    forall steps: seq<Step> :: After(p, steps).Some? ==> After(p, steps).value.surprises == 0
  }

  ghost predicate AlwaysInOrder(p: Params)
    requires p.Valid()
  {
    forall steps: seq<Step> :: After(p, steps).Some? ==> InOrder(After(p, steps).value)
  }

  /** A task is unfinished and nothing but a reception can happen. */
  ghost predicate Stuck(p: Params, s: State)
    requires WellFormed(p, s)
  {
    && (exists m :: m in s.tasks && !s.tasks[m].Done?)
    && forall step: Step :: !step.Receive? ==> !Enabled(p, s, step)
  }

  ghost predicate NeverStuck(p: Params)
    requires p.Valid()
  {
    forall steps: seq<Step> :: After(p, steps).Some? ==> !Stuck(p, After(p, steps).value)
  }

  /** The state when the first `j` transmit tasks are done and the `n` slots received
      after that, all without DLSCH, have only started their tasks. */
  function Quiet(p: Params, j: nat, n: nat): (s: State)
    requires p.Valid() && j > 0
    ensures WellFormed(p, s)
  {
    var r := Residue(p.slots, p.Base() + j);
    Init(p).(rx := p.first + j + n, finished := j, holder := None,
             tasks := map m: nat | p.Base() <= m < p.Base() + j + n :: Resting(p, j, m),
             fifo := Init(p).fifo[r := [Baton(p.Base() + j)]], sent := UplinkSlots(p, p.Base() + j))
  }

  function Resting(p: Params, j: nat, m: nat): Task {
    if m < p.Base() + j then Done else Pulling(1)
  }

  lemma Extend(p: Params, steps: seq<Step>, s: State, step: Step)
    requires p.Valid() && After(p, steps) == Some(s) && Enabled(p, s, step)
    ensures After(p, steps + [step]) == Some(Apply(p, s, step))
  {
    assert (steps + [step])[..|steps|] == steps;
  }

  lemma Go(p: Params, steps: seq<Step>, s: State, step: Step) returns (steps': seq<Step>, s': State)
    requires p.Valid() && After(p, steps) == Some(s) && Enabled(p, s, step)
    ensures After(p, steps') == Some(s') && s' == Apply(p, s, step) && WellFormed(p, s')
  {
    Extend(p, steps, s, step);
    steps', s' := steps + [step], Apply(p, s, step);
  }

  /** The task of slot `m`, with nothing left to pull, sends if it has to and pushes
      the baton on. */
  lemma Complete(p: Params, steps: seq<Step>, s: State, m: nat) returns (steps': seq<Step>, s': State)
    requires p.Valid() && After(p, steps) == Some(s) && WellFormed(p, s)
    requires m in s.tasks && s.tasks[m] == Pulling(0) && s.fifo == Init(p).fifo
    ensures After(p, steps') == Some(s')
    ensures s' == s.(tasks := s.tasks[m := Done], finished := s.finished + 1, holder := None,
                     fifo := Init(p).fifo[Residue(p.slots, m + 1) := [Baton(m + 1)]],
                     sent := s.sent + if Uplink(p, m) then [m] else [])
  {
    hide After, Residue;
    steps', s' := steps, s;
    if Uplink(p, m) {
      steps', s' := Go(p, steps', s', Poll(m));
    }
    steps', s' := Go(p, steps', s', Finish(m));
    assert [] + [Baton(m + 1)] == [Baton(m + 1)];
    assert s'.tasks == s.tasks[m := Done];
  }

  /** Slot by slot, each task completed before the next slot is received. */
  lemma {:induction false} Walk(p: Params, j: nat) returns (steps: seq<Step>, s: State)
    requires p.Valid() && j > 0
    ensures After(p, steps) == Some(s) && s == Quiet(p, j, 0)
  {
    if j == 1 {
      steps, s := WalkFirst(p);
    } else {
      steps, s := Walk(p, j - 1);
      steps, s := WalkOn(p, steps, s, j - 1);
    }
  }

  lemma WalkFirst(p: Params) returns (steps: seq<Step>, s: State)
    requires p.Valid()
    ensures After(p, steps) == Some(s) && s == Quiet(p, 1, 0)
  {
    assert After(p, []) == Some(Init(p));
    FirstReceived(p);
    hide Residue, After, StartTask, CountDlsch;
    steps, s := Go(p, [], Init(p), Receive(None));
    steps, s := Complete(p, steps, s, p.Base());
    assert s.tasks == Quiet(p, 1, 0).tasks;
    assert s.sent == UplinkSlots(p, p.Base() + 1);
  }

  lemma FirstReceived(p: Params)
    requires p.Valid()
    ensures Enabled(p, Init(p), Receive(None))
    ensures StartTask(p, CountDlsch(p, Init(p), None))
            == Init(p).(rx := p.first + 1, tasks := map[p.Base() := Pulling(0)])
    ensures UplinkSlots(p, p.Base() + 1) == [] + if Uplink(p, p.Base()) then [p.Base()] else []
  {
    hide Residue;
    var s := StartTask(p, CountDlsch(p, Init(p), None));
    assert s.tasks == map[p.Base() := Pulling(0)];
    assert s.waitFor == Init(p).waitFor;
  }

  lemma WalkOn(p: Params, steps: seq<Step>, s: State, j: nat) returns (steps': seq<Step>, s': State)
    requires p.Valid() && j > 0 && After(p, steps) == Some(s) && s == Quiet(p, j, 0)
    ensures After(p, steps') == Some(s') && s' == Quiet(p, j + 1, 0)
  {
    hide Residue, After;
    var m := p.Base() + j;
    steps', s' := Go(p, steps, s, Receive(None));
    assert s'.tasks == Quiet(p, j, 1).tasks;
    steps', s' := Go(p, steps', s', Pull(m));
    assert [Baton(m)][1..] == [];
    assert s'.fifo == Init(p).fifo && s'.waitFor == Init(p).waitFor;
    steps', s' := Complete(p, steps', s', m);
    assert s'.tasks == Quiet(p, j + 1, 0).tasks;
  }

  lemma {:induction false} Idle(p: Params, j: nat, n: nat) returns (steps: seq<Step>, s: State)
    requires p.Valid() && j > 0 && n <= p.window
    ensures After(p, steps) == Some(s) && s == Quiet(p, j, n)
  {
    if n == 0 {
      steps, s := Walk(p, j);
    } else {
      steps, s := Idle(p, j, n - 1);
      steps, s := IdleOn(p, steps, s, j, n - 1);
    }
  }

  lemma IdleOn(p: Params, steps: seq<Step>, s: State, j: nat, n: nat) returns (steps': seq<Step>, s': State)
    requires p.Valid() && j > 0 && n < p.window && After(p, steps) == Some(s) && s == Quiet(p, j, n)
    ensures After(p, steps') == Some(s') && s' == Quiet(p, j, n + 1)
  {
    hide Residue, After;
    steps', s' := Go(p, steps, s, Receive(None));
    assert s'.tasks == Quiet(p, j, n + 1).tasks;
    assert s'.waitFor == Init(p).waitFor;
  }

  /** The state when the tasks before slot `c` are done and the baton waits for that of
      `c`, a DLSCH for slot `want` having been counted that nobody will bring a token for. */
  function Owing(p: Params, rx: nat, c: nat, want: nat): (s: State)
    requires p.Valid() && c >= p.Base()
    ensures WellFormed(p, s)
  {
    var idle := Init(p);
    idle.(rx := rx, finished := c - p.Base(), holder := None,
          tasks := map m: nat | p.Base() <= m < rx + p.rxToTx :: OwingTask(c, want, m),
          waitFor := if want < rx + p.rxToTx then idle.waitFor else idle.waitFor[Residue(p.slots, want) := 1],
          fifo := idle.fifo[Residue(p.slots, c) := [Baton(c)]], sent := UplinkSlots(p, c))
  }

  function OwingTask(c: nat, want: nat, m: nat): Task {
    if m < c then Done else if m == want then Pulling(2) else Pulling(1)
  }

  /** Slots without DLSCH until the longest feedback delay reaches once round the
      FIFOs, to that of the slot `off` places after the current one; then a DLSCH. */
  lemma EarlyDlsch(p: Params, j: nat, n: nat, off: nat) returns (steps: seq<Step>, s: State)
    requires p.Valid() && j > 0 && n + p.maxK1 == p.slots + p.rxToTx + off && off < n < p.window
    requires Uplink(p, p.Base() + j + off)
    ensures After(p, steps) == Some(s)
    ensures var c, want := p.Base() + j, p.Base() + j + off + p.slots;
      s == Owing(p, p.first + j + n + 1, c, want).(decoding := Init(p).decoding[Residue(p.slots, want) := [want]])
  {
    hide Residue, After;
    var q;
    steps, q := Idle(p, j, n);
    var want := p.Base() + j + off + p.slots;
    OwnResidue(p.slots, p.Base() + j + off, p.Base() + j + n);
    OwnResidue(p.slots, p.Base() + j + n, want);
    assert q.rx + p.maxK1 == want && NextSlot(p, q) <= want < NextSlot(p, q) + p.slots;
    steps, s := Go(p, steps, q, Receive(Some(p.maxK1)));
    assert [] + [want] == [want];
    var e := Owing(p, p.first + j + n + 1, p.Base() + j, want);
    assert s.tasks == e.tasks;
    assert s.waitFor == e.waitFor;
  }

  /** And its token, pushed at once. */
  lemma EarlyToken(p: Params, j: nat, n: nat, off: nat) returns (steps: seq<Step>, s: State)
    requires p.Valid() && j > 0 && n + p.maxK1 == p.slots + p.rxToTx + off && off < n < p.window && off < 2
    requires Uplink(p, p.Base() + j + off)
    ensures After(p, steps) == Some(s)
    ensures var c, want := p.Base() + j, p.Base() + j + off + p.slots;
      var e, r := Owing(p, p.first + j + n + 1, c, want), Residue(p.slots, c + off);
      s == e.(fifo := e.fifo[r := (if off == 0 then [Baton(c)] else []) + [Decoded(want)]])
  {
    hide Residue, After;
    var s0;
    var c, want := p.Base() + j, p.Base() + j + off + p.slots;
    var r := Residue(p.slots, c + off);
    steps, s0 := EarlyDlsch(p, j, n, off);
    OwnResidue(p.slots, c + off, c);
    steps, s := Go(p, steps, s0, Decode(r, 0));
    assert [want][..0] + [want][1..] == [];
    assert s.decoding == Init(p).decoding;
  }

  /** Some slot that comes up later than the first `lo` is an uplink slot. */
  lemma LaterUplink(p: Params, lo: nat) returns (m: nat)
    requires p.Valid() && !NoUplink(p)
    ensures m >= lo && Uplink(p, m)
  {
    var slot: nat :| Uplink(p, slot);
    m := WithResidue(p.slots, lo, Residue(p.slots, slot));
  }

  /** The poll of slot `m` takes the token of the slot one frame later. */
  lemma PollSurprised(p: Params, m: nat) returns (steps: seq<Step>, s: State)
    requires p.Valid() && p.window > p.slots + p.rxToTx - p.maxK1
    requires m > p.Base() && Uplink(p, m)
    ensures After(p, steps) == Some(s)
    ensures s == Owing(p, m + p.slots - p.maxK1 + 1, m + 1, m + p.slots).(surprises := 1)
  {
    hide Residue, After;
    var j, n := m - p.Base(), p.slots + p.rxToTx - p.maxK1;
    var want := m + p.slots;
    steps, s := EarlyToken(p, j, n, 0);
    steps, s := Go(p, steps, s, Pull(m));
    assert [Baton(m), Decoded(want)][1..] == [Decoded(want)];
    steps, s := Go(p, steps, s, Poll(m));
    assert [Decoded(want)][1..] == [];
    assert s.fifo == Init(p).fifo;
    steps, s := Go(p, steps, s, Finish(m));
    assert [] + [Baton(m + 1)] == [Baton(m + 1)];
    var e := Owing(p, m + p.slots - p.maxK1 + 1, m + 1, want);
    assert s.tasks == e.tasks;
    assert s.waitFor == e.waitFor;
  }

  /** The tasks up to that slot get done, and it has its baton but never its token. */
  lemma OwingTaskDone(p: Params, steps: seq<Step>, s: State, rx: nat, c: nat, want: nat)
      returns (steps': seq<Step>, s': State)
    requires p.Valid() && p.Base() <= c < want && c < rx + p.rxToTx
    requires After(p, steps) == Some(s) && s == Owing(p, rx, c, want).(surprises := 1)
    ensures After(p, steps') == Some(s') && s' == Owing(p, rx, c + 1, want).(surprises := 1)
  {
    hide Residue, After;
    steps', s' := Go(p, steps, s, Pull(c));
    assert [Baton(c)][1..] == [];
    assert s'.fifo == Init(p).fifo;
    steps', s' := Complete(p, steps', s', c);
    assert s'.tasks == Owing(p, rx, c + 1, want).tasks;
  }

  lemma OwingReceive(p: Params, steps: seq<Step>, s: State, rx: nat, c: nat, want: nat)
      returns (steps': seq<Step>, s': State)
    requires p.Valid() && p.Base() <= c == rx + p.rxToTx <= want < c + p.slots && rx > p.first && Uplink(p, want)
    requires After(p, steps) == Some(s) && s == Owing(p, rx, c, want).(surprises := 1)
    ensures After(p, steps') == Some(s') && s' == Owing(p, rx + 1, c, want).(surprises := 1)
  {
    hide Residue, After;
    OwnResidue(p.slots, c, want);
    steps', s' := Go(p, steps, s, Receive(None));
    var e := Owing(p, rx + 1, c, want);
    assert s'.tasks == e.tasks;
    assert s'.waitFor == e.waitFor;
  }

  lemma {:induction false} Drain(p: Params, steps: seq<Step>, s: State, rx: nat, c: nat, want: nat)
      returns (steps': seq<Step>, s': State)
    requires p.Valid() && p.Base() <= c <= want < c + p.slots && rx > p.first && Uplink(p, want)
    requires c <= rx + p.rxToTx <= want + 1
    requires After(p, steps) == Some(s) && s == Owing(p, rx, c, want).(surprises := 1)
    ensures After(p, steps') == Some(s') && s' == Owing(p, want + 1 - p.rxToTx, want, want).(surprises := 1)
    decreases (want - c) + (want + 1 - rx - p.rxToTx)
  {
    hide Owing, After, Residue;
    if c < want && c < rx + p.rxToTx {
      steps', s' := OwingTaskDone(p, steps, s, rx, c, want);
      steps', s' := Drain(p, steps', s', rx, c + 1, want);
    } else if rx + p.rxToTx <= want {
      steps', s' := OwingReceive(p, steps, s, rx, c, want);
      steps', s' := Drain(p, steps', s', rx + 1, c, want);
    } else {
      steps', s' := steps, s;
    }
  }

  lemma Starved(p: Params, steps: seq<Step>, s: State, want: nat) returns (steps': seq<Step>, s': State)
    requires p.Valid() && want >= p.Base() && want + 1 >= p.rxToTx && Uplink(p, want)
    requires After(p, steps) == Some(s) && s == Owing(p, want + 1 - p.rxToTx, want, want).(surprises := 1)
    ensures After(p, steps') == Some(s') && WellFormed(p, s') && Stuck(p, s')
  {
    hide Residue, After;
    steps', s' := Go(p, steps, s, Pull(want));
    assert [Baton(want)][1..] == [];
    assert s'.fifo == Init(p).fifo;
    assert s'.tasks[want] == Pulling(1);
  }

  lemma StuckOnce(p: Params) returns (steps: seq<Step>)
    requires p.Valid() && p.window > p.slots + p.rxToTx - p.maxK1 && !NoUplink(p)
    ensures After(p, steps).Some? && Stuck(p, After(p, steps).value)
  {
    hide Owing, After, Residue, Stuck;
    var m := LaterUplink(p, p.Base() + 1);
    var s;
    steps, s := PollSurprised(p, m);
    SameUplink(p, m);
    steps, s := Drain(p, steps, s, m + p.slots - p.maxK1 + 1, m + 1, m + p.slots);
    steps, s := Starved(p, steps, s, m + p.slots);
  }

  lemma SameUplink(p: Params, m: nat)
    requires p.Valid()
    ensures Uplink(p, m + p.slots) <==> Uplink(p, m)
  {
    OwnResidue(p.slots, m, m);
  }

  /** With a token one frame early in its FIFO a task goes on before its turn. */
  lemma OrderBroken(p: Params) returns (steps: seq<Step>)
    requires p.Valid() && p.slots + p.rxToTx - p.maxK1 + 1 < p.window && !NoUplink(p)
    ensures After(p, steps).Some? && !InOrder(After(p, steps).value)
  {
    hide Residue, After;
    var m := LaterUplink(p, p.Base() + 2);
    var j, n := m - 1 - p.Base(), p.slots + p.rxToTx - p.maxK1 + 1;
    var s;
    steps, s := EarlyToken(p, j, n, 1);
    assert s.tasks[m] == Pulling(1) == s.tasks[m - 1];
    steps, s := Go(p, steps, s, Pull(m));
    assert [Decoded(m + p.slots)][1..] == [];
    steps, s := Go(p, steps, s, Poll(m));
    assert s.tasks[m].Sending? && !s.tasks[m - 1].Done?;
  }

  /** With two unfinished tasks on one FIFO the later can take the other's baton. */
  lemma Overtaken(p: Params) returns (steps: seq<Step>)
    requires p.Valid() && p.window > p.slots
    ensures After(p, steps).Some? && !InOrder(After(p, steps).value)
  {
    hide Residue, After;
    var c := p.Base() + 1;
    var m := c + p.slots;
    var s;
    steps, s := Idle(p, 1, p.slots + 1);
    OwnResidue(p.slots, c, c);
    assert s.tasks[c] == Pulling(1) == s.tasks[m];
    steps, s := Go(p, steps, s, Pull(m));
    steps, s := Go(p, steps, s, if Uplink(p, m) then Poll(m) else Finish(m));
    assert (s.tasks[m].Sending? || s.tasks[m].Done?) && !s.tasks[c].Done?;
  }

  // ------------------------------------------------------------ without feedback

  ghost function Undone(p: Params, s: State, r: nat): set<nat>
    requires WellFormed(p, s)
  {
    set m | m in s.tasks && !s.tasks[m].Done? && Residue(p.slots, m) == r
  }

  /** The slots that would be unfinished if tasks finished in order. */
  ghost function Later(p: Params, s: State, r: nat): set<nat>
    requires WellFormed(p, s)
  {
    set m: nat | Current(p, s) <= m < NextSlot(p, s) && Residue(p.slots, m) == r
  }

  ghost predicate Balanced(p: Params, s: State, r: nat)
    requires WellFormed(p, s)
  {
    |Undone(p, s, r)| == |Later(p, s, r)|
  }

  /** The baton lies in the FIFO of the slot number whose turn it is, and no task has it. */
  ghost predicate Queued(p: Params, s: State)
    requires WellFormed(p, s)
  {
    var r := Residue(p.slots, Current(p, s));
    && |s.fifo[r]| == 1 && s.fifo == Init(p).fifo[r := s.fifo[r]] && s.rx > p.first
    && forall m :: m in s.tasks ==> s.tasks[m] != Pulling(0)
  }

  /** The FIFOs are empty, and one task of that number has it. */
  ghost predicate Held(p: Params, s: State)
    requires WellFormed(p, s)
  {
    && s.fifo == Init(p).fifo && s.rx > p.first
    && exists h :: (
        && h in s.tasks && s.tasks[h] == Pulling(0) && Residue(p.slots, h) == Residue(p.slots, Current(p, s))
        && forall m :: m in s.tasks && s.tasks[m] == Pulling(0) ==> m == h)
  }

  ghost predicate Relayed(p: Params, s: State)
    requires WellFormed(p, s)
  {
    Queued(p, s) || Held(p, s) || (s.fifo == Init(p).fifo && s.rx == p.first)
  }

  ghost predicate Plain(p: Params, s: State)
    requires WellFormed(p, s)
  {
    && s.decoding == Init(p).decoding && s.waitFor == Init(p).waitFor && s.surprises == 0
    && s.rx >= p.first && Current(p, s) <= NextSlot(p, s)
    && (forall m :: m in s.tasks <==> p.Base() <= m < NextSlot(p, s))
    && (forall m :: m in s.tasks ==> s.tasks[m].Done? || s.tasks[m] == Pulling(0) || s.tasks[m] == Pulling(1))
  }

  /** Without feedback the tasks need not finish in order, but as many of each slot
      number are finished as if they did. */
  ghost predicate RelayInv(p: Params, s: State)
    requires WellFormed(p, s)
  {
    && Plain(p, s) && Relayed(p, s)
    && forall r: nat :: r < p.slots ==> Balanced(p, s, r)
  }

  lemma InitRelay(p: Params)
    requires p.Valid()
    ensures RelayInv(p, Init(p))
  {
    var s := Init(p);
    forall r: nat | r < p.slots ensures Balanced(p, s, r) {
      assert Undone(p, s, r) == {} && Later(p, s, r) == {};
    }
  }

  lemma ReceivePlain(p: Params, s: State)
    requires WellFormed(p, s) && NoUplink(p) && Plain(p, s) && Enabled(p, s, Receive(None))
    ensures var s', x := Apply(p, s, Receive(None)), NextSlot(p, s);
      && s' == s.(rx := s.rx + 1, tasks := s.tasks[x := Pulling(if s.rx == p.first then 0 else 1)])
      && Plain(p, s') && x !in s.tasks
  {
    hide Residue;
    var s', x := Apply(p, s, Receive(None)), NextSlot(p, s);
    assert !Uplink(p, x);
    assert s'.waitFor == s.waitFor;
  }

  lemma ReceiveKeepsRelay(p: Params, s: State)
    requires WellFormed(p, s) && NoUplink(p) && RelayInv(p, s) && Enabled(p, s, Receive(None))
    ensures RelayInv(p, Apply(p, s, Receive(None)))
  {
    ReceivePlain(p, s);
    var s', x := Apply(p, s, Receive(None)), NextSlot(p, s);
    var left := if s.rx == p.first then 0 else 1;
    hide Residue, Apply, Balanced, Relayed, Undone, Later;
    ReceiveRelayed(p, s, s', x, left);
    forall r: nat | r < p.slots ensures Balanced(p, s', r) {
      ReceiveBalanced(p, s, s', x, left, r);
    }
  }

  lemma ReceiveRelayed(p: Params, s: State, s': State, x: nat, left: nat)
    requires WellFormed(p, s) && WellFormed(p, s') && Plain(p, s) && Relayed(p, s) && x == NextSlot(p, s)
    requires left == if s.rx == p.first then 0 else 1
    requires s' == s.(rx := s.rx + 1, tasks := s.tasks[x := Pulling(left)]) && x !in s.tasks
    ensures Relayed(p, s')
  {
    hide Residue;
    if s.rx == p.first {
      assert s'.tasks[x] == Pulling(0) && x == Current(p, s');
      assert Held(p, s');
    } else if Queued(p, s) {
      assert Queued(p, s');
    } else {
      HeldStays(p, s, s', x);
    }
  }

  lemma HeldStays(p: Params, s: State, s': State, x: nat)
    requires WellFormed(p, s) && WellFormed(p, s') && Held(p, s)
    requires s' == s.(rx := s.rx + 1, tasks := s.tasks[x := Pulling(1)]) && x !in s.tasks
    ensures Held(p, s')
  {
    hide Residue;
    var h :| h in s.tasks && s.tasks[h] == Pulling(0) && Residue(p.slots, h) == Residue(p.slots, Current(p, s))
      && forall m :: m in s.tasks && s.tasks[m] == Pulling(0) ==> m == h;
    assert h in s'.tasks && s'.tasks[h] == Pulling(0) && Current(p, s') == Current(p, s);
    assert forall m :: m in s'.tasks && s'.tasks[m] == Pulling(0) ==> m == h;
  }

  lemma ReceiveBalanced(p: Params, s: State, s': State, x: nat, left: nat, r: nat)
    requires WellFormed(p, s) && WellFormed(p, s') && Balanced(p, s, r)
    requires x == NextSlot(p, s) && x !in s.tasks && Current(p, s) <= x
    requires s' == s.(rx := s.rx + 1, tasks := s.tasks[x := Pulling(left)])
    ensures Balanced(p, s', r)
  {
    hide Residue;
    if r == Residue(p.slots, x) {
      assert Undone(p, s', r) == Undone(p, s, r) + {x};
      assert Later(p, s', r) == Later(p, s, r) + {x};
    } else {
      assert Undone(p, s', r) == Undone(p, s, r);
      assert Later(p, s', r) == Later(p, s, r);
    }
  }

  lemma PullKeepsRelay(p: Params, s: State, m: nat)
    requires WellFormed(p, s) && RelayInv(p, s) && Enabled(p, s, Pull(m))
    ensures RelayInv(p, Apply(p, s, Pull(m)))
  {
    hide Residue;
    var s' := Apply(p, s, Pull(m));
    var cr := Residue(p.slots, Current(p, s));
    assert Queued(p, s) && Residue(p.slots, m) == cr && s.fifo[cr][1..] == [];
    assert s'.fifo == Init(p).fifo;
    assert s'.tasks[m] == Pulling(0);
    assert Held(p, s');
    forall r: nat | r < p.slots ensures Balanced(p, s', r) {
      assert Balanced(p, s, r);
      assert Undone(p, s', r) == Undone(p, s, r);
      assert Later(p, s', r) == Later(p, s, r);
    }
  }

  lemma FinishKeepsRelay(p: Params, s: State, m: nat)
    requires WellFormed(p, s) && RelayInv(p, s) && Enabled(p, s, Finish(m))
    ensures RelayInv(p, Apply(p, s, Finish(m)))
  {
    hide Residue;
    var s' := Apply(p, s, Finish(m));
    assert s.tasks[m] == Pulling(0) && Held(p, s);
    NextResidue(p, m, Current(p, s));
    TurnExists(p, s, m);
    assert s'.fifo[Residue(p.slots, m + 1)] == [] + [Baton(m + 1)];
    assert Queued(p, s');
    forall r: nat | r < p.slots ensures Balanced(p, s', r) {
      FinishBalanced(p, s, s', m, r);
    }
  }

  lemma FinishBalanced(p: Params, s: State, s': State, m: nat, r: nat)
    requires WellFormed(p, s) && WellFormed(p, s') && Balanced(p, s, r)
    requires m in s.tasks && !s.tasks[m].Done? && s'.tasks == s.tasks[m := Done]
    requires s'.finished == s.finished + 1 && s'.rx == s.rx && Current(p, s) < NextSlot(p, s)
    requires Residue(p.slots, m) == Residue(p.slots, Current(p, s))
    ensures Balanced(p, s', r)
  {
    hide Residue;
    var cur := Current(p, s);
    if r == Residue(p.slots, m) {
      assert Undone(p, s', r) == Undone(p, s, r) - {m} && m in Undone(p, s, r);
      assert Later(p, s', r) == Later(p, s, r) - {cur} && cur in Later(p, s, r);
    } else {
      assert Undone(p, s', r) == Undone(p, s, r);
      assert Later(p, s', r) == Later(p, s, r);
    }
  }

  lemma NextResidue(p: Params, a: nat, b: nat)
    requires p.Valid() && Residue(p.slots, a) == Residue(p.slots, b)
    ensures Residue(p.slots, a + 1) == Residue(p.slots, b + 1)
  {
    Successor(a, p.slots);
    Successor(b, p.slots);
  }

  /** As long as a task is unfinished the slot whose turn it is was received. */
  lemma TurnExists(p: Params, s: State, m: nat)
    requires WellFormed(p, s) && RelayInv(p, s) && m in s.tasks && !s.tasks[m].Done?
    ensures Current(p, s) < NextSlot(p, s)
  {
    hide Relayed;
    var r := Residue(p.slots, m);
    assert Balanced(p, s, r);
    assert m in Undone(p, s, r);
    assert Later(p, s, r) != {};
  }

  lemma {:induction false} SchedulesKeepRelay(p: Params, steps: seq<Step>)
    requires p.Valid() && NoUplink(p) && After(p, steps).Some?
    ensures RelayInv(p, After(p, steps).value)
  {
    hide RelayInv;
    if steps == [] {
      InitRelay(p);
    } else {
      var front := steps[..|steps| - 1];
      SchedulesKeepRelay(p, front);
      StepKeepsRelay(p, After(p, front).value, steps[|steps| - 1]);
    }
  }

  lemma StepKeepsRelay(p: Params, s: State, step: Step)
    requires WellFormed(p, s) && NoUplink(p) && RelayInv(p, s) && Enabled(p, s, step)
    ensures RelayInv(p, Apply(p, s, step))
  {
    hide Relayed;
    match step
    case Receive(_) => ReceiveKeepsRelay(p, s);
    case Decode(r, _) =>
    case Pull(m) => PullKeepsRelay(p, s, m);
    case Poll(_) =>
    case Finish(m) => FinishKeepsRelay(p, s, m);
  }

  /** So a task that can pull the baton, or has it, is always there. */
  lemma RelayGoesOn(p: Params, s: State)
    requires WellFormed(p, s) && NoUplink(p) && RelayInv(p, s)
    ensures !Stuck(p, s)
  {
    if m :| m in s.tasks && !s.tasks[m].Done? {
      TurnExists(p, s, m);
      var cur := Current(p, s);
      var r := Residue(p.slots, cur);
      assert cur in Later(p, s, r) && Balanced(p, s, r);
      assert Undone(p, s, r) != {};
      var h :| h in Undone(p, s, r);
      assert Enabled(p, s, Pull(h)) || exists x :: x in s.tasks && s.tasks[x] == Pulling(0);
      if x :| x in s.tasks && s.tasks[x] == Pulling(0) {
        assert Enabled(p, s, Finish(x));
      }
    }
  }

  // ---------------------------------------------------------------- the theorems

  /** No schedule makes a poll find a token if and only if at most N + D - K tasks are
      unfinished at a time, or no slot is uplink or mixed. */
  lemma PollSafeIff(p: Params)
    requires p.Valid()
    ensures PollsFindNothing(p) <==> p.window <= p.slots + p.rxToTx - p.maxK1 || NoUplink(p)
  {
    if NoUplink(p) || p.window <= p.slots + p.rxToTx - p.maxK1 {
      forall steps: seq<Step> | After(p, steps).Some?
        ensures After(p, steps).value.surprises == 0
      {
        if NoUplink(p) {
          SchedulesKeepRelay(p, steps);
        } else {
          SchedulesKeepExact(p, steps);
        }
      }
    } else {
      var m := LaterUplink(p, p.Base() + 1);
      var steps, s := PollSurprised(p, m);
      assert After(p, steps).Some?;
    }
  }

  /** The same condition decides whether a task can be left waiting for a token that is
      gone. */
  lemma NeverStuckIff(p: Params)
    requires p.Valid()
    ensures NeverStuck(p) <==> p.window <= p.slots + p.rxToTx - p.maxK1 || NoUplink(p)
  {
    if NoUplink(p) || p.window <= p.slots + p.rxToTx - p.maxK1 {
      forall steps: seq<Step> | After(p, steps).Some?
        ensures !Stuck(p, After(p, steps).value)
      {
        var s := After(p, steps).value;
        if NoUplink(p) {
          SchedulesKeepRelay(p, steps);
          RelayGoesOn(p, s);
        } else if m :| m in s.tasks && !s.tasks[m].Done? {
          SchedulesKeepExact(p, steps);
          NoDeadlock(p, steps);
        }
      }
    } else {
      var steps := StuckOnce(p);
      assert After(p, steps).Some?;
    }
  }

  /** The transmit sections keep their order in every schedule if and only if there is a
      FIFO for every unfinished task and the other bound is exceeded by one at the most:
      fewer than N unfinished tasks are not enough once K is D + 3. */
  lemma OrderIff(p: Params)
    requires p.Valid()
    ensures AlwaysInOrder(p) <==>
            p.window <= p.slots && (p.window <= p.slots + p.rxToTx - p.maxK1 + 1 || NoUplink(p))
  {
    if Fits(p, 1) {
      forall steps: seq<Step> | After(p, steps).Some?
        ensures InOrder(After(p, steps).value)
      {
        SchedulesKeepOrder(p, steps);
      }
    } else {
      var steps;
      if p.window > p.slots {
        steps := Overtaken(p);
      } else {
        steps := OrderBroken(p);
      }
      assert After(p, steps).Some?;
    }
  }
}
