/** Sample time cut into slots of unequal length that repeat every frame. */
module SlotClock {
  import opened Modular

  /** Lengths of the slots of one frame.  Absolute slots count on without wrap. */
  datatype Clock = Clock(lens: seq<nat>) {
    predicate Valid() {
      |lens| > 0 && forall l :: l in lens ==> l > 0
    }

    /** Number in its frame of absolute slot `a`: the remainder, found by taking
        off whole frames (see `SlotAndFrame`). */
    function SlotOf(a: nat): (slot: nat)
      requires |lens| > 0
      ensures slot < |lens|
    {
      if a < |lens| then a else SlotOf(a - |lens|)
    }

    /** Frames completed before absolute slot `a`. */
    function FrameOf(a: nat): nat
      requires |lens| > 0
    {
      if a < |lens| then 0 else FrameOf(a - |lens|) + 1
    }

    function Len(a: nat): nat
      requires |lens| > 0
    {
      lens[SlotOf(a)]
    }

    /** Sample time at which absolute slot `a` starts. */
    function Start(a: nat): nat
      requires |lens| > 0
    {
      if a == 0 then 0 else Start(a - 1) + Len(a - 1)
    }

    function FrameLength(): nat
      requires |lens| > 0
    {
      Start(|lens|)
    }

    /** Absolute slot `a` is the one in progress at sample time `ts`. */
    predicate InSlot(ts: nat, a: nat)
      requires |lens| > 0
    {
      Start(a) <= ts < Start(a + 1)
    }
  }

  lemma StartStep(c: Clock, a: nat)
    requires |c.lens| > 0
    ensures c.Start(a + 1) == c.Start(a) + c.lens[c.SlotOf(a)]
    ensures c.Start(0) == 0
  {
  }

  lemma FrameDown(c: Clock, a: nat)
    requires |c.lens| > 0
    ensures a < |c.lens| ==> c.SlotOf(a) == a && c.FrameOf(a) == 0
    ensures a >= |c.lens| ==> c.SlotOf(a) == c.SlotOf(a - |c.lens|) && c.FrameOf(a) == c.FrameOf(a - |c.lens|) + 1
  {
  }

  lemma {:induction false} SlotAndFrame(c: Clock, a: nat)
    requires |c.lens| > 0
    ensures c.SlotOf(a) == a % |c.lens| && c.FrameOf(a) == a / |c.lens|
  {
    if a < |c.lens| {
      DivModUnique(a, |c.lens|, 0, a);
    } else {
      SlotAndFrame(c, a - |c.lens|);
      AddMultiple(a - |c.lens|, 1, |c.lens|);
    }
  }

  lemma {:induction false} NextSlot(c: Clock, a: nat)
    requires |c.lens| > 0
    ensures c.SlotOf(a + 1) == if c.SlotOf(a) < |c.lens| - 1 then c.SlotOf(a) + 1 else 0
    ensures c.FrameOf(a + 1) == if c.SlotOf(a) < |c.lens| - 1 then c.FrameOf(a) else c.FrameOf(a) + 1
  {
    if a >= |c.lens| {
      NextSlot(c, a - |c.lens|);
    }
  }

  /** Whole frames can be taken out of a slot number and of a start time. */
  lemma {:induction false} ShiftByFrames(c: Clock, k: nat, n: nat)
    requires |c.lens| > 0
    ensures c.SlotOf(k * |c.lens| + n) == c.SlotOf(n)
    ensures c.FrameOf(k * |c.lens| + n) == k + c.FrameOf(n)
    ensures c.Start(k * |c.lens| + n) == k * c.FrameLength() + c.Start(n)
  {
    if k > 0 {
      MulStep(k - 1, k, |c.lens|);
      MulStep(k - 1, k, c.FrameLength());
      ShiftByFrames(c, k - 1, n);
      ShiftByFrame(c, (k - 1) * |c.lens| + n);
    }
  }

  lemma {:induction false} ShiftByFrame(c: Clock, n: nat)
    requires |c.lens| > 0
    ensures c.Start(|c.lens| + n) == c.FrameLength() + c.Start(n)
  {
    if n > 0 {
      ShiftByFrame(c, n - 1);
      assert c.SlotOf(|c.lens| + (n - 1)) == c.SlotOf(n - 1);
    }
  }

  /** The first slot of a window may be reduced modulo the frame. */
  lemma {:induction false} WindowInFrame(c: Clock, a: nat, d: nat)
    requires |c.lens| > 0
    ensures c.Start(c.SlotOf(a) + d) - c.Start(c.SlotOf(a)) == c.Start(a + d) - c.Start(a)
    ensures c.SlotOf(c.SlotOf(a) + d) == c.SlotOf(a + d)
  {
    hide Clock.Start, Clock.SlotOf;
    FrameDown(c, a);
    if a >= |c.lens| {
      FrameDown(c, a + d);
      WindowInFrame(c, a - |c.lens|, d);
      ShiftByFrame(c, a - |c.lens|);
      ShiftByFrame(c, a - |c.lens| + d);
    }
  }

  /** A start time, by frame and slot. */
  lemma {:induction false} StartSplits(c: Clock, a: nat)
    requires |c.lens| > 0
    ensures c.Start(a) == c.FrameOf(a) * c.FrameLength() + c.Start(c.SlotOf(a))
  {
    hide Clock.Start, Clock.SlotOf, Clock.FrameOf;
    FrameDown(c, a);
    if a >= |c.lens| {
      StartSplits(c, a - |c.lens|);
      ShiftByFrame(c, a - |c.lens|);
      MulStep(c.FrameOf(a) - 1, c.FrameOf(a), c.FrameLength());
    }
  }

  lemma {:induction false} StartMonotone(c: Clock, a: nat, b: nat)
    requires c.Valid() && a <= b
    ensures c.Start(a) + (b - a) <= c.Start(b)
    decreases b
  {
    if a < b {
      StartMonotone(c, a, b - 1);
      assert c.Len(b - 1) in c.lens;
    }
  }

  lemma InSlotUnique(c: Clock, ts: nat, a: nat, b: nat)
    requires c.Valid() && c.InSlot(ts, a) && c.InSlot(ts, b)
    ensures a == b
  {
    if a < b {
      StartMonotone(c, a + 1, b);
    } else if b < a {
      StartMonotone(c, b + 1, a);
    }
  }

  /** Frame and slot of a timestamp come from two separate divisions; both name
      the absolute slot in progress. */
  lemma InSlotSplits(c: Clock, ts: nat, a: nat)
    requires c.Valid() && c.InSlot(ts, a)
    ensures c.FrameLength() > 0
    ensures ts / c.FrameLength() == c.FrameOf(a)
    ensures c.InSlot(ts % c.FrameLength(), c.SlotOf(a))
  {
    StartMonotone(c, 0, |c.lens|);
    StartSplits(c, a);
    WindowInFrame(c, a, 1);
    StartMonotone(c, c.SlotOf(a) + 1, |c.lens|);
    WithinRound(ts, c.FrameLength(), c.FrameOf(a), c.Start(c.SlotOf(a)), c.Start(c.SlotOf(a) + 1));
  }

  // -------------------------------------------------- slots and sample offsets

  /** Offset of a slot in the frame, or the length of the `slAhead` slots from it on. */
  method GetSamplesSlotTimestamp(c: Clock, slot: nat, slAhead: nat) returns (count: nat)
    requires |c.lens| > 0
    ensures slAhead == 0 ==> count == c.Start(slot)
    ensures slAhead > 0 ==> c.Start(slot) + count == c.Start(slot + slAhead)
  {
    count := 0;
    if slAhead == 0 {
      for idx := 0 to slot
        invariant count == c.Start(idx)
      {
        count := count + c.Len(idx);
      }
    } else {
      for idx := slot to slot + slAhead
        invariant c.Start(slot) + count == c.Start(idx)
      {
        count := count + c.Len(idx);
      }
    }
  }

  /** Walks the slots of the frame until the timestamp's remainder is passed. */
  method GetSlotFromTimestamp(c: Clock, timestamp: nat) returns (slot: nat)
    requires c.Valid() && c.FrameLength() > 0
    ensures slot < |c.lens|
    ensures c.InSlot(timestamp % c.FrameLength(), slot)
  {
    slot := 0;
    var last: int := c.Len(0) - 1;
    var rest := timestamp % c.FrameLength();
    assert c.Start(1) == c.Start(0) + c.Len(0);
    while rest > last
      invariant slot < |c.lens|
      invariant last == c.Start(slot + 1) - 1
      invariant c.Start(slot) <= rest
      decreases |c.lens| - slot
    {
      slot := slot + 1;
      last := last + c.Len(slot);
    }
  }

  // ------------------------------------------------- clocks with few long items

  /** One long item in front of short ones. */
  lemma {:induction false} StartOneLong(c: Clock, n: nat, long: nat, short: nat)
    requires 0 < n <= |c.lens| && c.lens[0] == long
    requires forall i :: 0 < i < n ==> c.lens[i] == short
    ensures c.Start(n) == long + (n - 1) * short
  {
    if n == 1 {
      assert c.Start(1) == c.Start(0) + c.Len(0);
    } else {
      StartOneLong(c, n - 1, long, short);
      MulStep(n - 2, n - 1, short);
    }
  }

  lemma {:induction false} StartEqual(c: Clock, n: nat, short: nat)
    requires n <= |c.lens| && |c.lens| > 0
    requires forall i :: 0 <= i < n ==> c.lens[i] == short
    ensures c.Start(n) == n * short
  {
    if n > 0 {
      StartEqual(c, n - 1, short);
      MulStep(n - 1, n, short);
    }
  }

  /** A second long item at position `m`. */
  lemma {:induction false} StartTwoLong(c: Clock, n: nat, m: nat, long: nat, short: nat)
    requires 0 < m < n <= |c.lens| && c.lens[0] == c.lens[m] == long
    requires forall i :: 0 < i < n && i != m ==> c.lens[i] == short
    ensures c.Start(n) == 2 * long + (n - 2) * short
  {
    if n == m + 1 {
      StartOneLong(c, m, long, short);
    } else {
      StartTwoLong(c, n - 1, m, long, short);
      MulStep(n - 3, n - 2, short);
    }
  }
}
