/** The gNB's ring of receive regions.  The radio thread converts each uplink slot
    into one of four regions, marks it busy and sends a message down the pipeline
    L1_tx_out, tx_func, resp_L1, rx_func, L1_rx_out; only the message's return frees
    the region.  Slots are counted without wrap. */
module GnbRing {
  import opened Bits
  import opened Modular
  import opened Wrappers

  /** Number of receive regions. */
  const DEPTH := 4

  /** Slots per frame, the first slot forwarded, the uplink and mixed slots, and the
      slots for which tx_func returns before it triggers the receiver. */
  datatype Params = Params(slots: nat, first: nat, uplink: iset<nat>, dropped: iset<nat>)

  /** The region a slot uses depends on its number within the frame. */
  function Region(p: Params, k: nat): (r: nat)
    requires p.slots > 0
    ensures r < DEPTH
  {
    k % p.slots % DEPTH
  }

  /** Where rx_func looks for the samples of slot number `slot`: its two low bits. */
  function ReadRegion(slot: nat): (r: nat)
    ensures r < DEPTH
  {
    (if HasBit(slot, 0) then 1 else 0) + if HasBit(slot, 1) then 2 else 0
  }

  /** The first slot of a frame uses the first region, and the slots after it the next
      ones in turn. */
  lemma RegionsGoRound(p: Params, k: nat)
    requires p.slots > 0
    ensures k % p.slots == 0 ==> Region(p, k) == 0
    ensures (k + 1) % p.slots != 0 ==> Region(p, k + 1) == if Region(p, k) == 3 then 0 else Region(p, k) + 1
  {
    Successor(k, p.slots);
  }

  lemma TwoLowBits(n: nat)
    ensures ReadRegion(n) == n % 4
  {
    assert HasBit(n, 1) <==> HasBit(n / 2, 0);
    var q, r := n / 4, n % 4;
    assert n == 4 * q + r;
    assert n / 2 == 2 * q + r / 2;
  }

  /** The reader looks where the slot was converted to. */
  lemma ReadWhereWritten(p: Params, k: nat)
    requires p.slots > 0
    ensures ReadRegion(k % p.slots) == Region(p, k)
  {
    hide ReadRegion;
    TwoLowBits(k % p.slots);
  }

  /** The radio thread (next slot, busy flags), the pipeline stage by stage, the slot
      last converted into each region, the completions pulled so far, and the slots
      that the two workers have taken. */
  datatype State = State(next: nat, busy: seq<bool>,
                         txQueue: seq<nat>, txWorker: Option<nat>,
                         rxQueue: seq<nat>, rxWorker: Option<nat>, outQueue: seq<nat>,
                         region: seq<Option<nat>>, pulled: seq<nat>, txTaken: seq<nat>, rxTaken: seq<nat>)

  function Init(p: Params): State {
    State(p.first, seq(DEPTH, _ => false), [], None, [], None, [], seq(DEPTH, _ => None), [], [], [])
  }

  predicate WellFormed(p: Params, s: State) {
    p.slots > 0 && |s.busy| == |s.region| == DEPTH
  }

  /** The radio thread takes the next slot, or pulls a completion because the region
      it needs is busy; the workers take a message or finish with one. */
  datatype Step = Slot | Pull | TxTake | TxFinish | RxTake | RxFinish

  ghost predicate Blocked(p: Params, s: State)
    requires WellFormed(p, s)
  {
    s.next in p.uplink && s.busy[Region(p, s.next)]
  }

  ghost predicate Enabled(p: Params, s: State, step: Step)
    requires WellFormed(p, s)
  {
    match step
    case Slot => !Blocked(p, s)
    case Pull => Blocked(p, s) && s.outQueue != []
    case TxTake => s.txWorker.None? && s.txQueue != []
    case TxFinish => s.txWorker.Some?
    case RxTake => s.rxWorker.None? && s.rxQueue != []
    case RxFinish => s.rxWorker.Some?
  }

  ghost function Apply(p: Params, s: State, step: Step): (s': State)
    requires WellFormed(p, s) && Enabled(p, s, step)
    ensures WellFormed(p, s')
  {
    match step
    case Slot =>
      var k := s.next;
      var r := Region(p, k);
      var t := s.(next := k + 1, txQueue := s.txQueue + [k]);
      if k in p.uplink then t.(busy := t.busy[r := true], region := t.region[r := Some(k)]) else t
    case Pull =>
      var k := s.outQueue[0];
      s.(outQueue := s.outQueue[1..], busy := s.busy[Region(p, k) := false], pulled := s.pulled + [k])
    case TxTake =>
      s.(txWorker := Some(s.txQueue[0]), txQueue := s.txQueue[1..], txTaken := s.txTaken + [s.txQueue[0]])
    case TxFinish =>
      var k := s.txWorker.value;
      if k in p.dropped then s.(txWorker := None)
      else s.(txWorker := None, rxQueue := s.rxQueue + [k])
    case RxTake =>
      s.(rxWorker := Some(s.rxQueue[0]), rxQueue := s.rxQueue[1..], rxTaken := s.rxTaken + [s.rxQueue[0]])
    case RxFinish =>
      var k := s.rxWorker.value;
      if k in p.uplink then s.(rxWorker := None, outQueue := s.outQueue + [k]) else s.(rxWorker := None)
  }

  ghost function After(p: Params, steps: seq<Step>): (s: Option<State>)
    requires p.slots > 0
    ensures s.Some? ==> WellFormed(p, s.value)
  {
    if steps == [] then Some(Init(p))
    else
      match After(p, steps[..|steps| - 1])
      case None => None
      case Some(s) => if Enabled(p, s, steps[|steps| - 1]) then Some(Apply(p, s, steps[|steps| - 1])) else None
  }

  // ----------------------------------------------------- the pipeline as one queue

  function Held(w: Option<nat>): seq<nat> {
    if w.Some? then [w.value] else []
  }

  ghost function Uplinks(p: Params, q: seq<nat>): (u: seq<nat>)
    ensures forall i :: 0 <= i < |u| ==> u[i] in p.uplink
  {
    if q == [] then []
    else Uplinks(p, q[..|q| - 1]) + if q[|q| - 1] in p.uplink then [q[|q| - 1]] else []
  }

  lemma {:induction false} UplinksAppend(p: Params, a: seq<nat>, b: seq<nat>)
    ensures Uplinks(p, a + b) == Uplinks(p, a) + Uplinks(p, b)
  {
    if b == [] {
      assert a + b == a;
    } else {
      assert (a + b)[..|a + b| - 1] == a + b[..|b| - 1];
      UplinksAppend(p, a, b[..|b| - 1]);
    }
  }

  /** Messages on their way to rx_func or in it, oldest first. */
  function Coming(s: State): seq<nat> {
    Held(s.rxWorker) + s.rxQueue + Held(s.txWorker) + s.txQueue
  }

  /** Uplink slots whose completion the radio thread has still to pull. */
  ghost function Pending(p: Params, s: State): seq<nat> {
    s.outQueue + Uplinks(p, Coming(s))
  }

  /** The uplink slots from the first up to `next`. */
  ghost function UplinkSlots(p: Params, next: nat): (u: seq<nat>)
    ensures forall i :: 0 <= i < |u| ==> u[i] in p.uplink && p.first <= u[i] < next
    ensures forall i, j :: 0 <= i < j < |u| ==> u[i] < u[j]
  {
    if next <= p.first then []
    else UplinkSlots(p, next - 1) + if next - 1 in p.uplink then [next - 1] else []
  }

  /** Each pending slot has a busy region to itself, and no other region is busy. */
  ghost predicate Ring(p: Params, pending: seq<nat>, busy: seq<bool>)
    requires p.slots > 0
  {
    && |busy| == DEPTH
    && (forall i, j :: 0 <= i < j < |pending| ==> Region(p, pending[i]) != Region(p, pending[j]))
    && (forall i :: 0 <= i < |pending| ==> busy[Region(p, pending[i])])
    && (forall r :: 0 <= r < DEPTH && busy[r] ==> exists i :: 0 <= i < |pending| && Region(p, pending[i]) == r)
  }

  /** Every pending slot's samples are still in its region. */
  ghost predicate Intact(p: Params, s: State)
    requires WellFormed(p, s)
  {
    forall k :: k in Pending(p, s) ==> s.region[Region(p, k)] == Some(k)
  }

  ghost predicate Inv(p: Params, s: State)
    requires WellFormed(p, s)
  {
    && s.next >= p.first
    && s.pulled + Pending(p, s) == UplinkSlots(p, s.next)
    && Ring(p, Pending(p, s), s.busy)
    && Intact(p, s)
  }

  lemma {:induction false} Pigeonhole(q: seq<nat>, n: nat)
    requires forall i :: 0 <= i < |q| ==> q[i] < n
    requires forall i, j :: 0 <= i < j < |q| ==> q[i] != q[j]
    ensures |q| <= n
  {
    if q != [] {
      assert q[0] < n;
      if i :| 0 <= i < |q| && q[i] == n - 1 {
        Pigeonhole(q[..i] + q[i + 1..], n - 1);
      } else {
        Pigeonhole(q, n - 1);
      }
    }
  }

  /** Never more pending slots than regions. */
  lemma AtMostDepth(p: Params, pending: seq<nat>, busy: seq<bool>)
    requires p.slots > 0 && Ring(p, pending, busy)
    ensures |pending| <= DEPTH
  {
    hide Region;
    Pigeonhole(seq(|pending|, i requires 0 <= i < |pending| => Region(p, pending[i])), DEPTH);
  }

  predicate Inner(step: Step) {
    step.TxTake? || step.TxFinish? || step.RxTake? || step.RxFinish?
  }

  ghost predicate Drops(p: Params, s: State, step: Step) {
    step.TxFinish? && s.txWorker.Some? && s.txWorker.value in p.uplink && s.txWorker.value in p.dropped
  }

  lemma UplinksAround(p: Params, front: seq<nat>, k: nat, rest: seq<nat>)
    ensures Uplinks(p, front + [k] + rest) == Uplinks(p, front) + Uplinks(p, [k]) + Uplinks(p, rest)
    ensures Uplinks(p, [k]) == if k in p.uplink then [k] else []
    ensures Uplinks(p, []) == []
  {
    UplinksAppend(p, front + [k], rest);
    UplinksAppend(p, front, [k]);
    assert [k][..0] == [];
  }

  /** Seen from the radio thread the pipeline is one queue: the workers' steps leave
      what is pending, and its order, unchanged. */
  lemma InnerKeepsPending(p: Params, s: State, step: Step)
    requires WellFormed(p, s) && Enabled(p, s, step) && Inner(step) && !Drops(p, s, step)
    ensures Pending(p, Apply(p, s, step)) == Pending(p, s)
  {
    match step
    case TxTake =>
      assert s.txQueue == [s.txQueue[0]] + s.txQueue[1..];
      assert Coming(Apply(p, s, TxTake)) == Coming(s);
    case RxTake =>
      assert s.rxQueue == [s.rxQueue[0]] + s.rxQueue[1..];
      assert Coming(Apply(p, s, RxTake)) == Coming(s);
    case TxFinish => TxFinishKeepsPending(p, s);
    case RxFinish => RxFinishKeepsPending(p, s);
  }

  lemma TxFinishKeepsPending(p: Params, s: State)
    requires WellFormed(p, s) && Enabled(p, s, TxFinish) && !Drops(p, s, TxFinish)
    ensures Pending(p, Apply(p, s, TxFinish)) == Pending(p, s)
  {
    hide Uplinks;
    var k := s.txWorker.value;
    if k in p.dropped {
      var front := Held(s.rxWorker) + s.rxQueue;
      UplinksAround(p, front, k, s.txQueue);
      UplinksAppend(p, front, s.txQueue);
      assert Coming(Apply(p, s, TxFinish)) == front + s.txQueue;
    } else {
      assert Coming(Apply(p, s, TxFinish)) == Coming(s);
    }
  }

  lemma RxFinishKeepsPending(p: Params, s: State)
    requires WellFormed(p, s) && Enabled(p, s, RxFinish)
    ensures Pending(p, Apply(p, s, RxFinish)) == Pending(p, s)
  {
    hide Uplinks;
    var k := s.rxWorker.value;
    var rest := s.rxQueue + Held(s.txWorker) + s.txQueue;
    UplinksAround(p, [], k, rest);
    assert Coming(s) == [] + [k] + rest && Coming(Apply(p, s, RxFinish)) == rest;
  }

  lemma SlotAppends(p: Params, s: State)
    requires WellFormed(p, s) && Enabled(p, s, Slot)
    ensures Pending(p, Apply(p, s, Slot)) == Pending(p, s) + if s.next in p.uplink then [s.next] else []
  {
    assert Coming(Apply(p, s, Slot)) == Coming(s) + [s.next];
    UplinksAppend(p, Coming(s), [s.next]);
    assert [s.next][..0] == [];
  }

  lemma PullTakesFirst(p: Params, s: State)
    requires WellFormed(p, s) && Enabled(p, s, Pull)
    ensures Pending(p, s) == [s.outQueue[0]] + Pending(p, Apply(p, s, Pull))
  {
    assert s.outQueue == [s.outQueue[0]] + s.outQueue[1..];
  }

  /** Freeing the region of the oldest pending slot. */
  lemma RingDrop(p: Params, pending: seq<nat>, busy: seq<bool>)
    requires p.slots > 0 && Ring(p, pending, busy) && pending != []
    ensures Ring(p, pending[1..], busy[Region(p, pending[0]) := false])
  {
    hide Region;
    var busy' := busy[Region(p, pending[0]) := false];
    forall r | 0 <= r < DEPTH && busy'[r]
      ensures exists i :: 0 <= i < |pending[1..]| && Region(p, pending[1..][i]) == r
    {
      var i :| 0 <= i < |pending| && Region(p, pending[i]) == r;
      assert pending[1..][i - 1] == pending[i];
    }
  }

  lemma RingAdd(p: Params, pending: seq<nat>, busy: seq<bool>, k: nat)
    requires p.slots > 0 && Ring(p, pending, busy) && !busy[Region(p, k)]
    ensures Ring(p, pending + [k], busy[Region(p, k) := true])
  {
    hide Region;
    var busy' := busy[Region(p, k) := true];
    forall r | 0 <= r < DEPTH && busy'[r]
      ensures exists i :: 0 <= i < |pending + [k]| && Region(p, (pending + [k])[i]) == r
    {
      if r == Region(p, k) {
        assert (pending + [k])[|pending|] == k;
      } else {
        var i :| 0 <= i < |pending| && Region(p, pending[i]) == r;
        assert (pending + [k])[i] == pending[i];
      }
    }
  }

  lemma SlotKeepsInv(p: Params, s: State)
    requires WellFormed(p, s) && Inv(p, s) && Enabled(p, s, Slot)
    ensures Inv(p, Apply(p, s, Slot))
  {
    hide Region, Pending, Ring, UplinkSlots;
    var q := Pending(p, s);
    SlotAppends(p, s);
    NextUplink(p, s.next);
    if s.next in p.uplink {
      RingOwn(p, q, s.busy, s.next);
      RingAdd(p, q, s.busy, s.next);
      assert s.pulled + (q + [s.next]) == (s.pulled + q) + [s.next];
    } else {
      assert q + [] == q && UplinkSlots(p, s.next) + [] == UplinkSlots(p, s.next);
    }
  }

  lemma NextUplink(p: Params, next: nat)
    requires next >= p.first
    ensures UplinkSlots(p, next + 1) == UplinkSlots(p, next) + if next in p.uplink then [next] else []
  {
  }

  lemma RingOwn(p: Params, pending: seq<nat>, busy: seq<bool>, k: nat)
    requires p.slots > 0 && Ring(p, pending, busy) && !busy[Region(p, k)]
    ensures forall k' :: k' in pending ==> Region(p, k') != Region(p, k)
  {
  }

  lemma PullKeepsInv(p: Params, s: State)
    requires WellFormed(p, s) && Inv(p, s) && Enabled(p, s, Pull)
    ensures Inv(p, Apply(p, s, Pull))
  {
    hide Region, Pending, Ring;
    var q, q' := Pending(p, s), Pending(p, Apply(p, s, Pull));
    PullTakesFirst(p, s);
    RingDrop(p, q, s.busy);
    assert q[1..] == q';
    assert s.pulled + [s.outQueue[0]] + q' == s.pulled + q;
  }

  lemma StepKeepsInv(p: Params, s: State, step: Step)
    requires WellFormed(p, s) && Inv(p, s) && Enabled(p, s, step) && !Drops(p, s, step)
    ensures Inv(p, Apply(p, s, step))
  {
    hide Region, Pending, Ring, UplinkSlots;
    if step.Slot? {
      SlotKeepsInv(p, s);
    } else if step.Pull? {
      PullKeepsInv(p, s);
    } else {
      InnerKeepsPending(p, s, step);
    }
  }

  ghost predicate NoDrop(p: Params) {
    forall k :: k in p.uplink && k in p.dropped ==> k < p.first
  }

  /** All messages on their way belong to slots forwarded. */
  ghost predicate Forwarded(p: Params, s: State) {
    forall k :: k in Coming(s) ==> p.first <= k < s.next
  }

  lemma StepKeepsForwarded(p: Params, s: State, step: Step)
    requires WellFormed(p, s) && s.next >= p.first && Forwarded(p, s) && Enabled(p, s, step)
    ensures Apply(p, s, step).next >= p.first && Forwarded(p, Apply(p, s, step))
  {
    var s' := Apply(p, s, step);
    forall k | k in Coming(s') ensures k in Coming(s) || (step.Slot? && k == s.next) {
    }
  }

  lemma NothingDrops(p: Params, s: State, step: Step)
    requires NoDrop(p) && Forwarded(p, s)
    ensures !Drops(p, s, step)
  {
    if s.txWorker.Some? {
      assert s.txWorker.value in Coming(s);
    }
  }

  /** With no early return for an uplink slot, in every reachable state of every
      schedule a region is busy if and only if exactly one pending slot uses it, its
      samples are untouched, and the completions come back once each in slot order. */
  lemma {:induction false} SchedulesKeepInv(p: Params, steps: seq<Step>)
    requires p.slots > 0 && NoDrop(p) && After(p, steps).Some?
    ensures Inv(p, After(p, steps).value) && Forwarded(p, After(p, steps).value)
  {
    if steps != [] {
      hide Inv, Forwarded;
      var front := steps[..|steps| - 1];
      SchedulesKeepInv(p, front);
      var s := After(p, front).value;
      var step := steps[|steps| - 1];
      InvNext(p, s);
      StepKeepsForwarded(p, s, step);
      NothingDrops(p, s, step);
      StepKeepsInv(p, s, step);
    }
  }

  lemma InvNext(p: Params, s: State)
    requires WellFormed(p, s) && Inv(p, s)
    ensures s.next >= p.first
  {
  }

  // ------------------------------------------------------------------ the theorems

  ghost predicate Uses(p: Params, s: State, r: nat, k: nat)
    requires WellFormed(p, s)
  {
    k in Pending(p, s) && Region(p, k) == r
  }

  ghost predicate BusyIffPending(p: Params, s: State)
    requires WellFormed(p, s)
  {
    forall r: nat :: r < DEPTH ==> (s.busy[r] <==> exists k :: Uses(p, s, r, k))
  }

  lemma InvGivesBusyIffPending(p: Params, s: State)
    requires WellFormed(p, s) && Inv(p, s)
    ensures BusyIffPending(p, s)
    ensures forall r: nat, k, k' :: Uses(p, s, r, k) && Uses(p, s, r, k') ==> k == k'
  {
    hide Pending, Region;
    var q := Pending(p, s);
    forall r: nat | r < DEPTH && s.busy[r]
      ensures exists k :: Uses(p, s, r, k)
    {
      var i :| 0 <= i < |q| && Region(p, q[i]) == r;
      assert Uses(p, s, r, q[i]);
    }
  }

  /** Busy means exactly one pending slot; completions are few, in slot order, each
      once; what rx_func reads is what was converted for its slot. */
  ghost predicate Safe(p: Params, s: State)
    requires WellFormed(p, s)
  {
    && BusyIffPending(p, s)
    && (forall r: nat, k, k' :: Uses(p, s, r, k) && Uses(p, s, r, k') ==> k == k')
    && |s.outQueue| <= DEPTH
    && s.pulled + s.outQueue <= UplinkSlots(p, s.next)
    && (s.rxWorker.Some? && s.rxWorker.value in p.uplink ==> (
          s.region[ReadRegion(s.rxWorker.value % p.slots)] == s.rxWorker))
  }

  lemma InvIsSafe(p: Params, s: State)
    requires WellFormed(p, s) && Inv(p, s)
    ensures Safe(p, s)
  {
    hide Region, Ring, BusyIffPending, Uplinks, UplinkSlots;
    InvGivesBusyIffPending(p, s);
    AtMostDepth(p, Pending(p, s), s.busy);
    assert s.pulled + s.outQueue + Uplinks(p, Coming(s)) == s.pulled + Pending(p, s);
    if s.rxWorker.Some? && s.rxWorker.value in p.uplink {
      BeingRead(p, s);
      ReadWhereWritten(p, s.rxWorker.value);
    }
  }

  lemma RingSafety(p: Params, steps: seq<Step>)
    requires p.slots > 0 && NoDrop(p) && After(p, steps).Some?
    ensures Safe(p, After(p, steps).value)
  {
    SchedulesKeepInv(p, steps);
    InvIsSafe(p, After(p, steps).value);
  }

  lemma BeingRead(p: Params, s: State)
    requires WellFormed(p, s) && s.rxWorker.Some? && s.rxWorker.value in p.uplink
    ensures s.rxWorker.value in Pending(p, s)
  {
    hide Uplinks;
    var k, rest := s.rxWorker.value, s.rxQueue + Held(s.txWorker) + s.txQueue;
    UplinksAround(p, [], k, rest);
    assert Coming(s) == [] + [k] + rest;
    assert Pending(p, s)[|s.outQueue|] == k;
  }

  /** The front end never converts into a region whose slot is still pending. */
  lemma NeverOverwritten(p: Params, steps: seq<Step>)
    requires p.slots > 0 && NoDrop(p) && After(p, steps).Some?
    requires Enabled(p, After(p, steps).value, Slot) && After(p, steps).value.next in p.uplink
    ensures var s := After(p, steps).value;
      forall k :: k in Pending(p, s) ==> Region(p, k) != Region(p, s.next)
  {
    SchedulesKeepInv(p, steps);
    var s := After(p, steps).value;
    RingOwn(p, Pending(p, s), s.busy, s.next);
  }

  /** The radio thread waits if and only if a pending slot has the region it needs. */
  lemma WaitsIff(p: Params, steps: seq<Step>)
    requires p.slots > 0 && NoDrop(p) && After(p, steps).Some?
    ensures var s := After(p, steps).value;
      Enabled(p, s, Slot) <==> !(s.next in p.uplink && exists k :: Uses(p, s, Region(p, s.next), k))
  {
    RingSafety(p, steps);
  }

  /** In particular not while all pending slots are of the same frame and fewer than
      four slots back. */
  lemma NoWaitWithinDepth(p: Params, steps: seq<Step>)
    requires p.slots > 0 && NoDrop(p) && After(p, steps).Some?
    requires var s := After(p, steps).value;
      forall k :: k in Pending(p, s) ==> k / p.slots == s.next / p.slots && s.next < k + DEPTH
    ensures Enabled(p, After(p, steps).value, Slot)
  {
    WaitsIff(p, steps);
    SchedulesKeepInv(p, steps);
    var s := After(p, steps).value;
    if k :| Uses(p, s, Region(p, s.next), k) {
      assert k in UplinkSlots(p, s.next);
      WithinDepthApart(p, k, s.next);
    }
  }

  lemma WithinDepthApart(p: Params, a: nat, b: nat)
    requires p.slots > 0 && a < b < a + DEPTH && a / p.slots == b / p.slots
    ensures Region(p, a) != Region(p, b)
  {
    var q := a / p.slots;
    assert a == q * p.slots + a % p.slots && b == q * p.slots + b % p.slots;
  }

  // ------------------------------------------------------------ every slot passes

  /** The slots forwarded by the radio thread. */
  function Slots(p: Params, next: nat): seq<nat> {
    if next <= p.first then [] else Slots(p, next - 1) + [next - 1]
  }

  /** Those for which tx_func triggers the receiver. */
  ghost function Kept(p: Params, q: seq<nat>): seq<nat> {
    if q == [] then []
    else Kept(p, q[..|q| - 1]) + if q[|q| - 1] in p.dropped then [] else [q[|q| - 1]]
  }

  ghost predicate Passing(p: Params, s: State)
    requires WellFormed(p, s)
  {
    && s.next >= p.first
    && s.txTaken + s.txQueue == Slots(p, s.next)
    && (s.txWorker.Some? ==> s.txTaken != [] && s.txTaken[|s.txTaken| - 1] == s.txWorker.value)
    && s.rxTaken + s.rxQueue == Kept(p, if s.txWorker.Some? then s.txTaken[..|s.txTaken| - 1] else s.txTaken)
    && (s.rxWorker.Some? ==> s.rxTaken != [] && s.rxTaken[|s.rxTaken| - 1] == s.rxWorker.value)
  }

  lemma TxKeepsPassing(p: Params, s: State, step: Step)
    requires WellFormed(p, s) && Passing(p, s) && Enabled(p, s, step) && (step.TxTake? || step.TxFinish?)
    ensures Passing(p, Apply(p, s, step))
  {
    hide Slots;
    var s' := Apply(p, s, step);
    if step.TxTake? {
      assert s'.txTaken + s'.txQueue == s.txTaken + s.txQueue;
      assert s'.txTaken[..|s.txTaken|] == s.txTaken;
    } else {
      var k := s.txWorker.value;
      assert s.rxTaken + (s.rxQueue + [k]) == s.rxTaken + s.rxQueue + [k];
      assert s.rxTaken + s.rxQueue + [] == s.rxTaken + s.rxQueue;
    }
  }

  lemma RxKeepsPassing(p: Params, s: State, step: Step)
    requires WellFormed(p, s) && Passing(p, s) && Enabled(p, s, step) && (step.RxTake? || step.RxFinish?)
    ensures Passing(p, Apply(p, s, step))
  {
    hide Slots, Kept;
    var s' := Apply(p, s, step);
    if step.RxTake? {
      assert s'.rxTaken + s'.rxQueue == s.rxTaken + s.rxQueue;
    }
  }

  lemma RadioKeepsPassing(p: Params, s: State, step: Step)
    requires WellFormed(p, s) && Passing(p, s) && Enabled(p, s, step) && (step.Slot? || step.Pull?)
    ensures Passing(p, Apply(p, s, step))
  {
    hide Kept, Region;
    var s' := Apply(p, s, step);
    if step.Slot? {
      assert s.txTaken + (s.txQueue + [s.next]) == s.txTaken + s.txQueue + [s.next];
    }
  }

  lemma StepKeepsPassing(p: Params, s: State, step: Step)
    requires WellFormed(p, s) && Passing(p, s) && Enabled(p, s, step)
    ensures Passing(p, Apply(p, s, step))
  {
    hide Passing, Apply;
    if step.TxTake? || step.TxFinish? {
      TxKeepsPassing(p, s, step);
    } else if step.RxTake? || step.RxFinish? {
      RxKeepsPassing(p, s, step);
    } else {
      RadioKeepsPassing(p, s, step);
    }
  }

  /** In every schedule tx_func takes the slots forwarded, of whatever type, in order
      and once each, and rx_func takes those of them that tx_func did not give up. */
  lemma {:induction false} EverySlotPasses(p: Params, steps: seq<Step>)
    requires p.slots > 0 && After(p, steps).Some?
    ensures Passing(p, After(p, steps).value)
  {
    if steps != [] {
      hide Passing;
      var front := steps[..|steps| - 1];
      EverySlotPasses(p, front);
      StepKeepsPassing(p, After(p, front).value, steps[|steps| - 1]);
    }
  }

  // --------------------------------------------------------------------- progress

  function Weight(w: Option<nat>): nat {
    if w.Some? then 1 else 0
  }

  /** How far the messages have to go. */
  function Work(s: State): nat {
    5 * |s.txQueue| + 4 * Weight(s.txWorker) + 3 * |s.rxQueue| + 2 * Weight(s.rxWorker) + |s.outQueue|
  }

  lemma WorkShrinks(p: Params, s: State, step: Step)
    requires WellFormed(p, s) && Enabled(p, s, step) && !step.Slot?
    ensures Work(Apply(p, s, step)) < Work(s)
  {
  }

  /** Between two slots there is a bounded number of steps. */
  lemma {:induction false} WaitIsBounded(p: Params, steps: seq<Step>, wait: seq<Step>)
    requires p.slots > 0 && After(p, steps + wait).Some?
    requires Slot !in wait
    ensures After(p, steps).Some? && |wait| + Work(After(p, steps + wait).value) <= Work(After(p, steps).value)
  {
    hide Work, Apply, Enabled;
    if wait == [] {
      assert steps + wait == steps;
    } else {
      var all := steps + wait;
      var last := all[|all| - 1];
      assert last == wait[|wait| - 1] && last in wait;
      assert all[..|all| - 1] == steps + wait[..|wait| - 1];
      WaitIsBounded(p, steps, wait[..|wait| - 1]);
      WorkShrinks(p, After(p, all[..|all| - 1]).value, last);
    }
  }

  /** The radio thread is never stuck: when it cannot take the next slot, a worker
      can move or a completion is there to be pulled. */
  lemma NoDeadlock(p: Params, steps: seq<Step>)
    requires p.slots > 0 && NoDrop(p) && After(p, steps).Some?
    requires !Enabled(p, After(p, steps).value, Slot)
    ensures exists step: Step :: !step.Slot? && Enabled(p, After(p, steps).value, step)
  {
    SchedulesKeepInv(p, steps);
    var s := After(p, steps).value;
    assert Pending(p, s) != [];
    if s.outQueue != [] {
      assert Enabled(p, s, Pull);
    } else if s.rxWorker.Some? {
      assert Enabled(p, s, RxFinish);
    } else if s.rxQueue != [] {
      assert Enabled(p, s, RxTake);
    } else if s.txWorker.Some? {
      assert Enabled(p, s, TxFinish);
    } else {
      assert Coming(s) == s.txQueue;
      assert Enabled(p, s, TxTake);
    }
  }

  // ------------------------------------------------- a slot that tx_func gives up

  /** A region that stays busy with no message left to free it. */
  ghost predicate Lost(p: Params, s: State, r: nat)
    requires WellFormed(p, s) && r < DEPTH
  {
    s.busy[r] && forall k :: k in Pending(p, s) ==> Region(p, k) != r
  }

  /** When tx_func returns early for an uplink slot, the slot's region is lost. */
  lemma DropLosesRegion(p: Params, s: State)
    requires WellFormed(p, s) && Inv(p, s) && Drops(p, s, TxFinish)
    ensures Lost(p, Apply(p, s, TxFinish), Region(p, s.txWorker.value))
  {
    hide Region, Uplinks, UplinkSlots;
    var s' := Apply(p, s, TxFinish);
    var k := s.txWorker.value;
    var front := Held(s.rxWorker) + s.rxQueue;
    UplinksAround(p, front, k, s.txQueue);
    UplinksAppend(p, front, s.txQueue);
    assert Coming(s') == front + s.txQueue;
    var a, b := s.outQueue + Uplinks(p, front), Uplinks(p, s.txQueue);
    assert Pending(p, s) == a + [k] + b;
    assert Pending(p, s') == a + b;
    RingGap(p, a, k, b, s.busy);
  }

  lemma RingGap(p: Params, a: seq<nat>, k: nat, b: seq<nat>, busy: seq<bool>)
    requires p.slots > 0 && Ring(p, a + [k] + b, busy)
    ensures busy[Region(p, k)]
    ensures forall k' :: k' in a + b ==> Region(p, k') != Region(p, k)
  {
    hide Region;
    var q := a + [k] + b;
    assert q[|a|] == k;
    forall k' | k' in a + b ensures Region(p, k') != Region(p, k) {
      var i :| 0 <= i < |a + b| && (a + b)[i] == k';
      assert q[if i < |a| then i else i + 1] == k';
    }
  }

  /** And it is lost for good: however the run goes on, no uplink slot of that
      region is ever taken again. */
  lemma {:induction false} LostForEver(p: Params, steps: seq<Step>, more: seq<Step>, r: nat)
    requires p.slots > 0 && r < DEPTH && After(p, steps + more).Some?
    requires After(p, steps).Some? ==> Lost(p, After(p, steps).value, r)
    ensures var s := After(p, steps + more).value;
      Lost(p, s, r) && (s.next in p.uplink && Region(p, s.next) == r ==> !Enabled(p, s, Slot))
  {
    hide Lost;
    var all := steps + more;
    if more == [] {
      assert all == steps;
    } else {
      var n := |all| - 1;
      assert all[..n] == steps + more[..|more| - 1];
      LostForEver(p, steps, more[..|more| - 1], r);
      LostStep(p, After(p, all[..n]).value, all[n], r);
    }
    LostBlocks(p, After(p, all).value, r);
  }

  lemma LostBlocks(p: Params, s: State, r: nat)
    requires WellFormed(p, s) && r < DEPTH && Lost(p, s, r)
    ensures s.next in p.uplink && Region(p, s.next) == r ==> !Enabled(p, s, Slot)
  {
  }

  lemma LostStep(p: Params, s: State, step: Step, r: nat)
    requires WellFormed(p, s) && r < DEPTH && Lost(p, s, r) && Enabled(p, s, step)
    ensures Lost(p, Apply(p, s, step), r)
  {
    hide Region, Pending;
    if step.Slot? {
      SlotAppends(p, s);
    } else if step.Pull? {
      PullTakesFirst(p, s);
      assert s.outQueue[0] in Pending(p, s);
    } else if Drops(p, s, step) {
      DropShrinks(p, s);
    } else {
      InnerKeepsPending(p, s, step);
    }
  }

  lemma DropShrinks(p: Params, s: State)
    requires WellFormed(p, s) && Drops(p, s, TxFinish)
    ensures forall k :: k in Pending(p, Apply(p, s, TxFinish)) ==> k in Pending(p, s)
  {
    hide Uplinks;
    var front := Held(s.rxWorker) + s.rxQueue;
    UplinksAround(p, front, s.txWorker.value, s.txQueue);
    UplinksAppend(p, front, s.txQueue);
    assert Coming(Apply(p, s, TxFinish)) == front + s.txQueue;
  }

  // ------------------------------------------------------- early returns, exactly

  ghost predicate AlwaysBusyIffPending(p: Params)
    requires p.slots > 0
  {
    forall steps: seq<Step> :: After(p, steps).Some? ==> BusyIffPending(p, After(p, steps).value)
  }

  /** A run with nothing between the radio thread and its completions. */
  ghost predicate Drained(p: Params, steps: seq<Step>, s: State, k: nat)
    requires p.slots > 0
  {
    && After(p, steps) == Some(s) && Inv(p, s) && s.next == k
    && s.txQueue == [] && s.txWorker.None? && s.rxQueue == [] && s.rxWorker.None?
  }

  lemma Extend(p: Params, steps: seq<Step>, s: State, step: Step)
    requires p.slots > 0 && After(p, steps) == Some(s) && Enabled(p, s, step)
    ensures After(p, steps + [step]) == Some(Apply(p, s, step))
  {
    assert (steps + [step])[..|steps|] == steps;
  }

  lemma {:induction false} Unblock(p: Params, steps: seq<Step>, s: State, k: nat) returns (steps': seq<Step>, s': State)
    requires p.slots > 0 && Drained(p, steps, s, k)
    ensures Drained(p, steps', s', k) && !Blocked(p, s')
    decreases |s.outQueue|
  {
    steps', s' := steps, s;
    if Blocked(p, s) {
      hide Region, After, Inv;
      DrainedBlocked(p, steps, s, k);
      Extend(p, steps, s, Pull);
      StepKeepsInv(p, s, Pull);
      steps', s' := Unblock(p, steps + [Pull], Apply(p, s, Pull), k);
    }
  }

  lemma DrainedBlocked(p: Params, steps: seq<Step>, s: State, k: nat)
    requires p.slots > 0 && Drained(p, steps, s, k) && Blocked(p, s)
    ensures s.outQueue != []
  {
    assert Coming(s) == [];
  }

  /** One more step of a run that keeps the invariant. */
  lemma Go(p: Params, steps: seq<Step>, s: State, step: Step) returns (steps': seq<Step>, s': State)
    requires p.slots > 0 && After(p, steps) == Some(s) && Inv(p, s) && Enabled(p, s, step) && !Drops(p, s, step)
    ensures After(p, steps') == Some(s') && s' == Apply(p, s, step) && Inv(p, s')
  {
    Extend(p, steps, s, step);
    StepKeepsInv(p, s, step);
    steps', s' := steps + [step], Apply(p, s, step);
  }

  /** A slot taken and handed to tx_func. */
  lemma Send(p: Params, steps: seq<Step>, s: State, k: nat) returns (steps': seq<Step>, s': State)
    requires p.slots > 0 && Drained(p, steps, s, k) && !Blocked(p, s)
    ensures After(p, steps') == Some(s') && Inv(p, s') && s'.next == k + 1
    ensures s'.txQueue == [] && s'.txWorker == Some(k) && s'.rxQueue == [] && s'.rxWorker.None?
  {
    hide Region, After, Inv;
    var s1: State;
    steps', s1 := Go(p, steps, s, Slot);
    steps', s' := Go(p, steps', s1, TxTake);
  }

  /** And passed through to the end. */
  lemma Finish(p: Params, steps: seq<Step>, s: State, k: nat) returns (steps': seq<Step>, s': State)
    requires p.slots > 0 && After(p, steps) == Some(s) && Inv(p, s) && s.next == k + 1
    requires s.txQueue == [] && s.txWorker == Some(k) && s.rxQueue == [] && s.rxWorker.None?
    requires !(k in p.uplink && k in p.dropped)
    ensures Drained(p, steps', s', k + 1)
  {
    hide Region, After, Inv;
    steps', s' := Go(p, steps, s, TxFinish);
    if k !in p.dropped {
      var s1: State;
      steps', s1 := Go(p, steps', s', RxTake);
      steps', s' := Go(p, steps', s1, RxFinish);
    }
  }

  lemma InitDrained(p: Params)
    requires p.slots > 0
    ensures Drained(p, [], Init(p), p.first) && !Blocked(p, Init(p))
  {
    assert Pending(p, Init(p)) == [];
  }

  /** Slots can be taken one by one, each sent all the way, as long as none is lost. */
  lemma {:induction false} Reach(p: Params, k: nat) returns (steps: seq<Step>, s: State)
    requires p.slots > 0 && k >= p.first
    requires forall j :: p.first <= j < k ==> !(j in p.uplink && j in p.dropped)
    ensures Drained(p, steps, s, k) && !Blocked(p, s)
  {
    hide *;
    if k == p.first {
      InitDrained(p);
      steps, s := [], Init(p);
    } else {
      steps, s := Reach(p, k - 1);
      steps, s := Send(p, steps, s, k - 1);
      steps, s := Finish(p, steps, s, k - 1);
      steps, s := Unblock(p, steps, s, k);
    }
  }

  lemma {:induction false} DroppedBreaks(p: Params, k: nat)
    requires p.slots > 0 && k >= p.first && k in p.uplink && k in p.dropped
    ensures !AlwaysBusyIffPending(p)
  {
    if j: nat :| p.first <= j < k && j in p.uplink && j in p.dropped {
      DroppedBreaks(p, j);
    } else {
      FirstDropBreaks(p, k);
    }
  }

  lemma FirstDropBreaks(p: Params, k: nat)
    requires p.slots > 0 && k >= p.first && k in p.uplink && k in p.dropped
    requires forall j :: p.first <= j < k ==> !(j in p.uplink && j in p.dropped)
    ensures !AlwaysBusyIffPending(p)
  {
    var steps, s := Reach(p, k);
    steps, s := Send(p, steps, s, k);
    DropBreaks(p, steps, s, k);
  }

  lemma DropBreaks(p: Params, steps: seq<Step>, s: State, k: nat)
    requires p.slots > 0 && After(p, steps) == Some(s) && Inv(p, s)
    requires s.txWorker == Some(k) && k in p.uplink && k in p.dropped
    ensures !AlwaysBusyIffPending(p)
  {
    hide Region, After, Inv, Lost, BusyIffPending, Apply;
    DropLosesRegion(p, s);
    Extend(p, steps, s, TxFinish);
    LostIsWrong(p, Apply(p, s, TxFinish), Region(p, k));
    assert After(p, steps + [TxFinish]).Some?;
  }

  lemma LostIsWrong(p: Params, s: State, r: nat)
    requires WellFormed(p, s) && r < DEPTH && Lost(p, s, r)
    ensures !BusyIffPending(p, s)
  {
  }

  /** The busy flags are right in every reachable state if and only if tx_func never
      returns early for an uplink or mixed slot. */
  lemma BusyIffPendingIff(p: Params)
    requires p.slots > 0
    ensures AlwaysBusyIffPending(p) <==> NoDrop(p)
  {
    if NoDrop(p) {
      forall steps: seq<Step> | After(p, steps).Some?
        ensures BusyIffPending(p, After(p, steps).value)
      {
        SchedulesKeepInv(p, steps);
        InvGivesBusyIffPending(p, After(p, steps).value);
      }
    } else {
      var k :| k in p.uplink && k in p.dropped && k >= p.first;
      DroppedBreaks(p, k);
    }
  }

  // --------------------------------------------------------------- the wait loop

  /** The radio thread's wait for region `want`: completions are pulled, and their
      regions freed, until one frees the region wanted.  `queue` is what the FIFO
      delivers, the pending slots in order. */
  method AwaitRegion(p: Params, busy: array<bool>, queue: seq<nat>, want: nat) returns (pulls: nat)
    requires p.slots > 0 && want < DEPTH && Ring(p, queue, busy[..])
    modifies busy
    ensures pulls <= DEPTH && pulls <= |queue|
    ensures !busy[want] && Ring(p, queue[pulls..], busy[..])
    ensures old(busy[want]) ==> pulls > 0 && Region(p, queue[pulls - 1]) == want
    ensures forall i :: 0 <= i < pulls - 1 ==> Region(p, queue[i]) != want
    ensures forall r :: 0 <= r < DEPTH ==>
      (busy[r] <==> old(busy[r]) && forall i :: 0 <= i < pulls ==> Region(p, queue[i]) != r)
  {
    hide Region;
    AtMostDepth(p, queue, busy[..]);
    pulls := 0;
    assert queue[0..] == queue;
    if busy[want] {
      var notDone := true;
      while notDone
        invariant pulls <= |queue| && Ring(p, queue[pulls..], busy[..])
        invariant notDone == busy[want]
        invariant forall i :: 0 <= i < pulls - 1 ==> Region(p, queue[i]) != want
        invariant pulls > 0 ==> (notDone <==> Region(p, queue[pulls - 1]) != want)
        invariant notDone || pulls > 0
        invariant forall r :: 0 <= r < DEPTH ==>
          (busy[r] <==> old(busy[r]) && forall i :: 0 <= i < pulls ==> Region(p, queue[i]) != r)
        decreases |queue| - pulls, notDone
      {
        assert busy[..][want];
        var k := queue[pulls];
        ghost var was := busy[..];
        RingDrop(p, queue[pulls..], was);
        busy[Region(p, k)] := false;
        assert busy[..] == was[Region(p, k) := false];
        assert queue[pulls..][1..] == queue[pulls + 1..];
        if Region(p, k) == want {
          notDone := false;
        }
        pulls := pulls + 1;
      }
    }
  }
}
