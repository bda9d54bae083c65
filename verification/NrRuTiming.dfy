/** Timing of the NR radio unit: timestamps of received slots under device drift,
    and the time, frame and slot of the transmission derived from them. */
module NrRuTiming {
  import opened Modular
  import opened SlotClock
  import NrFrame

  /** Frame and slot as the two divisions of a timestamp give them. */
  predicate At(c: Clock, ts: nat, frame: nat, slot: nat)
    requires |c.lens| > 0 && c.FrameLength() > 0
  {
    frame == ts / c.FrameLength() % 1024 && slot < |c.lens| && c.InSlot(ts % c.FrameLength(), slot)
  }

  lemma AtSlot(c: Clock, ts: nat, a: nat, frame: nat, slot: nat)
    requires c.Valid() && c.InSlot(ts, a)
    ensures c.FrameLength() > 0
    ensures At(c, ts, frame, slot) <==> frame == c.FrameOf(a) % 1024 && slot == c.SlotOf(a)
  {
    hide Clock.Start, Clock.SlotOf, Clock.FrameOf;
    InSlotSplits(c, ts, a);
    if At(c, ts, frame, slot) {
      InSlotUnique(c, ts % c.FrameLength(), slot, c.SlotOf(a));
    }
  }

  /** Slots less than a frame apart have different numbers. */
  lemma SlotsDiffer(c: Clock, a: nat, b: nat)
    requires |c.lens| > 0 && a < b < a + |c.lens|
    ensures c.SlotOf(a) != c.SlotOf(b)
  {
    hide Clock.SlotOf, Clock.FrameOf;
    SlotAndFrame(c, a);
    SlotAndFrame(c, b);
    if c.SlotOf(a) == c.SlotOf(b) {
      SameResidueSameNumber(a, b, |c.lens|);
    }
  }

  /** A time `offset` past the start of slot `b` is in that slot just when the slot
      is longer than that; otherwise it shows a different position. */
  lemma OffsetInSlot(c: Clock, b: nat, offset: nat, frame: nat, slot: nat)
    requires c.Valid() && offset < c.FrameLength()
    requires frame == c.FrameOf(b) % 1024 && slot == c.SlotOf(b)
    ensures At(c, c.Start(b) + offset, frame, slot) <==> offset < c.Len(b)
  {
    hide Clock.Start, Clock.SlotOf, Clock.FrameOf;
    var ts := c.Start(b) + offset;
    StartStep(c, b);
    if offset < c.Len(b) {
      AtSlot(c, ts, b, frame, slot);
    } else {
      ShiftByFrame(c, b);
      var d := SlotAt(c, ts, b + 1, b + |c.lens|);
      AtSlot(c, ts, d, frame, slot);
      SlotsDiffer(c, b, d);
    }
  }

  lemma {:induction false} SlotAt(c: Clock, ts: nat, lo: nat, hi: nat) returns (a: nat)
    requires c.Valid() && lo < hi && c.Start(lo) <= ts < c.Start(hi)
    ensures lo <= a < hi && c.InSlot(ts, a)
    decreases hi - lo
  {
    if ts < c.Start(lo + 1) {
      a := lo;
    } else {
      a := SlotAt(c, ts, lo + 1, hi);
    }
  }

  class NrRu {
    const clock: Clock
    const slAhead: nat
    var firstRx: bool
    var timestampRx: nat
    var tsOffset: int
    var frameRx: nat
    var ttiRx: nat
    // the loop counters of `ru_thread`
    var frame: nat
    var slot: nat
    var timestampTx: nat
    var frameTx: nat
    var ttiTx: nat
    /** Absolute slot last received and the place in it of its timestamp. */
    ghost var current: nat
    ghost var offset: nat

    ghost predicate Valid()
      reads this
    {
      && clock.Valid() && clock.FrameLength() > 0
      && slot < |clock.lens|
      && (!firstRx ==>
            && timestampRx == clock.Start(current) + offset
            && offset < clock.Len(current)
            && frameRx == frame == clock.FrameOf(current) % 1024
            && ttiRx == slot == clock.SlotOf(current))
    }

    constructor (clock: Clock, slAhead: nat, tsOffset: int)
      requires clock.Valid() && clock.FrameLength() > 0
      ensures Valid() && firstRx && this.clock == clock && this.slAhead == slAhead && this.tsOffset == tsOffset
      ensures frame == 1023 && slot == |clock.lens| - 1
    {
      this.clock, this.slAhead, this.tsOffset := clock, slAhead, tsOffset;
      firstRx, timestampRx, frameRx, ttiRx := true, 0, 0, 0;
      slot, frame := |clock.lens| - 1, 1023;
      timestampTx, frameTx, ttiTx := 0, 0, 0;
      current, offset := 0, 0;
    }

    /** One pass of the loop up to and including the device read.  `ok` is false
        where the program stops. */
    method Receive(ts: int) returns (ok: bool)
      requires Valid() && (firstRx ==> ts >= tsOffset)
      modifies this
      ensures !firstRx && tsOffset == ts - timestampRx
      ensures ok ==> Valid()
      ensures old(firstRx) ==> ok && tsOffset == old(tsOffset) && clock.InSlot(timestampRx, current)
      ensures !old(firstRx) ==>
                && timestampRx == old(timestampRx) + old(clock.Len(current))
                && timestampRx == clock.Start(current) + offset
                && current == old(current) + 1 && offset == old(offset)
                && (ok <==> offset < clock.Len(current))
    {
      hide Clock.Start, Clock.SlotOf, Clock.FrameOf, At;
      if !firstRx {
        NextPosition();
      }
      if slot == |clock.lens| - 1 {
        slot, frame := 0, (frame + 1) % 1024;
      } else {
        slot := slot + 1;
      }
      ok := RxRf(ts);
    }

    /** The device read.  The first timestamp is taken as it is; after it every
        drift of the device goes into `tsOffset`, and a position other than the
        counters' stops the program. */
    method RxRf(ts: int) returns (ok: bool)
      requires clock.Valid() && clock.FrameLength() > 0 && slot < |clock.lens|
      requires firstRx ==> ts >= tsOffset
      requires !firstRx ==>
                 && timestampRx == clock.Start(current) + offset && offset < clock.FrameLength()
                 && clock.lens[if slot == 0 then |clock.lens| - 1 else slot - 1] == clock.Len(current)
                 && frame == clock.FrameOf(current + 1) % 1024 && slot == clock.SlotOf(current + 1)
      modifies this
      ensures !firstRx && tsOffset == ts - timestampRx
      ensures ok ==> Valid()
      ensures old(firstRx) ==> ok && tsOffset == old(tsOffset) && clock.InSlot(timestampRx, current)
      ensures !old(firstRx) ==>
                && timestampRx == old(timestampRx) + old(clock.Len(current))
                && current == old(current) + 1 && offset == old(offset)
                && timestampRx == clock.Start(current) + offset
                && (ok <==> offset < clock.Len(current))
    {
      hide Clock.Start, Clock.SlotOf, Clock.FrameOf;
      var oldTs := timestampRx;
      var reading := ts - tsOffset;
      if !firstRx {
        var prev := clock.lens[if slot == 0 then |clock.lens| - 1 else slot - 1];
        if reading - oldTs != prev {
          tsOffset := tsOffset + (reading - oldTs - prev);
          reading := ts - tsOffset;
        }
      }
      timestampRx := reading;
      frameRx := timestampRx / clock.FrameLength() % 1024;
      ttiRx := GetSlotFromTimestamp(clock, timestampRx);
      if firstRx {
        firstRx, frame, slot := false, frameRx, ttiRx;
        current := SlotOfReading(clock, timestampRx);
        offset := timestampRx - clock.Start(current);
        StartStep(clock, current);
        ReadPosition(clock, timestampRx, current, frameRx, ttiRx);
        ok := true;
      } else {
        StartStep(clock, current);
        current := current + 1;
        CompareReading(clock, timestampRx, current, offset, frameRx, ttiRx, frame, slot);
        ok := ttiRx == slot && frameRx == frame;
      }
    }

    /** What stepping the counters means for the slot received next. */
    lemma NextPosition()
      requires |clock.lens| > 0
      ensures clock.SlotOf(current + 1) ==
              if clock.SlotOf(current) == |clock.lens| - 1 then 0 else clock.SlotOf(current) + 1
      ensures clock.FrameOf(current + 1) % 1024
           == if clock.SlotOf(current) == |clock.lens| - 1 then (clock.FrameOf(current) % 1024 + 1) % 1024
              else clock.FrameOf(current) % 1024
      ensures clock.Start(current + 1) == clock.Start(current) + clock.Len(current)
      ensures offset < clock.Len(current) ==> offset < clock.FrameLength()
    {
      NextSlot(clock, current);
      LenInFrame(clock, current);
    }

    /** Time and position of the transmission, counted from the reception. */
    method PlanTransmission()
      requires Valid() && !firstRx
      modifies `timestampTx, `frameTx, `ttiTx
      ensures timestampTx == clock.Start(current + slAhead) + offset
      ensures ttiTx == clock.SlotOf(current + slAhead)
      ensures frameTx == if ttiRx > ttiTx then (frameRx + 1) % 1024 else frameRx
      ensures slAhead < |clock.lens| ==>
                (At(clock, timestampTx, frameTx, ttiTx) <==> offset < clock.Len(current + slAhead))
    {
      hide Clock.Start, Clock.SlotOf, Clock.FrameOf, At;
      timestampTx := timestampRx;
      for i := ttiRx to ttiRx + slAhead
        invariant timestampTx == timestampRx + clock.Start(i) - clock.Start(ttiRx)
        invariant clock.Start(i) >= clock.Start(ttiRx)
      {
        SlotAndFrame(clock, i);
        StartStep(clock, i);
        timestampTx := timestampTx + clock.lens[i % |clock.lens|];
      }
      WindowInFrame(clock, current, slAhead);
      SlotAndFrame(clock, ttiRx + slAhead);
      ttiTx := (ttiRx + slAhead) % |clock.lens|;
      frameTx := if ttiRx > ttiTx then (frameRx + 1) % 1024 else frameRx;
      if slAhead < |clock.lens| {
        TransmitPosition(clock, current, offset, slAhead, frameRx, ttiRx, frameTx, ttiTx);
      }
    }

    /** A whole run of receptions: nothing but the first reading decides whether
        the program ever stops. */
    method Run(readings: seq<int>) returns (ok: bool)
      requires Valid() && !firstRx
      modifies this
      ensures ok ==> Valid() && !firstRx && offset == old(offset) && current == old(current) + |readings|
      ensures ok && readings != [] ==> tsOffset == readings[|readings| - 1] - timestampRx
      ensures ok <==> GoesOn(clock, old(current), old(offset), |readings|)
    {
      hide Clock.Start, Clock.SlotOf, Clock.FrameOf, At;
      ok := true;
      for i := 0 to |readings|
        invariant Valid() && !firstRx && offset == old(offset) && current == old(current) + i
        invariant i > 0 ==> tsOffset == readings[i - 1] - timestampRx
        invariant forall b: nat :: old(current) < b <= old(current) + i ==> old(offset) < clock.Len(b)
      {
        ok := Receive(readings[i]);
        if !ok {
          assert old(offset) >= clock.Len(current);
          return;
        }
      }
    }
  }

  lemma {:induction false} LenInFrame(c: Clock, a: nat)
    requires |c.lens| > 0
    ensures c.Len(a) <= c.FrameLength()
  {
    hide Clock.Start;
    SumHasItem(c, c.SlotOf(a), |c.lens|);
  }

  lemma {:induction false} SumHasItem(c: Clock, i: nat, n: nat)
    requires i < n <= |c.lens|
    ensures c.lens[i] <= c.Start(n)
  {
    if i < n - 1 {
      SumHasItem(c, i, n - 1);
    }
  }

  lemma SlotOfReading(c: Clock, ts: nat) returns (a: nat)
    requires c.Valid()
    ensures c.InSlot(ts, a)
  {
    StartMonotone(c, 0, ts + 1);
    a := SlotAt(c, ts, 0, ts + 1);
  }

  lemma ReadPosition(c: Clock, ts: nat, a: nat, frame: nat, slot: nat)
    requires c.Valid() && c.FrameLength() > 0 && c.InSlot(ts, a) && At(c, ts, frame, slot)
    ensures frame == c.FrameOf(a) % 1024 && slot == c.SlotOf(a)
  {
    AtSlot(c, ts, a, frame, slot);
  }

  /** The position read off a timestamp is the expected one just when the offset
      in the slot fits. */
  lemma CompareReading(c: Clock, ts: nat, b: nat, offset: nat, frameRead: nat, slotRead: nat, frame: nat, slot: nat)
    requires c.Valid() && ts == c.Start(b) + offset && offset < c.FrameLength()
    requires At(c, ts, frameRead, slotRead)
    requires frame == c.FrameOf(b) % 1024 && slot == c.SlotOf(b)
    ensures slotRead == slot && frameRead == frame <==> offset < c.Len(b)
  {
    hide Clock.Start, Clock.SlotOf, Clock.FrameOf;
    OffsetInSlot(c, b, offset, frame, slot);
    if offset < c.Len(b) {
      InSlotUnique(c, ts % c.FrameLength(), slot, slotRead);
    }
  }

  /** After slot `a`, `n` more slots are received without a stop. */
  ghost predicate GoesOn(c: Clock, a: nat, offset: nat, n: nat)
    requires |c.lens| > 0
  {
    forall b: nat :: a < b <= a + n ==> offset < c.Len(b)
  }

  /** Over an unbounded run every slot of the frame comes up, so no run ever stops just
      when the first reading lies within the shortest slot. */
  lemma NeverStopsIff(c: Clock, a: nat, offset: nat)
    requires c.Valid()
    ensures (forall n: nat :: GoesOn(c, a, offset, n)) <==> (forall l :: l in c.lens ==> offset < l)
  {
    hide Clock.SlotOf, Clock.FrameOf;
    if forall n: nat :: GoesOn(c, a, offset, n) {
      forall b: nat | b > a ensures offset < c.Len(b) {
        assert GoesOn(c, a, offset, b - a);
      }
      forall l | l in c.lens ensures offset < l {
        var i :| 0 <= i < |c.lens| && c.lens[i] == l;
        ShiftByFrames(c, a + 1, i);
        FrameDown(c, i);
        MulStep(a, a + 1, |c.lens|);
        AtLeast(a + 1, |c.lens|);
        assert offset < c.Len((a + 1) * |c.lens| + i);
      }
    } else {
      var n: nat :| !GoesOn(c, a, offset, n);
      var b: nat :| a < b <= a + n && offset >= c.Len(b);
      assert c.Len(b) in c.lens;
    }
  }

  lemma AtLeast(k: nat, d: nat)
    requires d > 0
    ensures k * d >= k
  {
  }

  /** The position computed for a transmission belongs to its timestamp just when
      the reading's offset fits into the slot transmitted in; the other formula in
      the code for frame and slot agrees. */
  lemma TransmitPosition(c: Clock, a: nat, offset: nat, slAhead: nat,
                         frameRx: nat, ttiRx: nat, frameTx: nat, ttiTx: nat)
    requires c.Valid() && offset < c.Len(a) && slAhead < |c.lens|
    requires ttiRx == c.SlotOf(a) && frameRx == c.FrameOf(a) % 1024
    requires ttiTx == c.SlotOf(a + slAhead)
    requires frameTx == if ttiRx > ttiTx then (frameRx + 1) % 1024 else frameRx
    ensures c.FrameLength() > 0
    ensures At(c, c.Start(a + slAhead) + offset, frameTx, ttiTx) <==> offset < c.Len(a + slAhead)
    ensures ttiTx == (ttiRx + slAhead) % |c.lens|
    ensures frameTx == if ttiRx > |c.lens| - 1 - slAhead then (frameRx + 1) % 1024 else frameRx
  {
    hide Clock.Start, Clock.SlotOf, Clock.FrameOf, At;
    LenInFrame(c, a);
    AdvanceInFrame(c, a, slAhead);
    SlotAndFrame(c, ttiRx + slAhead);
    WindowInFrame(c, a, slAhead);
    OffsetInSlot(c, a + slAhead, offset, frameTx, ttiTx);
  }

  lemma {:induction false} AdvanceInFrame(c: Clock, a: nat, d: nat)
    requires |c.lens| > 0 && d < |c.lens|
    ensures c.SlotOf(a) + d < |c.lens| ==>
              c.SlotOf(a + d) == c.SlotOf(a) + d && c.FrameOf(a + d) == c.FrameOf(a)
    ensures c.SlotOf(a) + d >= |c.lens| ==>
              c.SlotOf(a + d) == c.SlotOf(a) + d - |c.lens| && c.FrameOf(a + d) == c.FrameOf(a) + 1
  {
    if a >= |c.lens| {
      AdvanceInFrame(c, a - |c.lens|, d);
    }
  }

  // -------------------------------------------------- length of a mixed slot

  /** `tx_rf` counts the downlink symbols of a mixed slot and sends only so many. */
  method MixedSlotBurst(fp: NrFrame.FrameParms, slot: nat, downlink: seq<bool>) returns (length: nat)
    requires fp.mu <= 4 && |downlink| == NrFrame.SYMBOLS_PER_SLOT && true in downlink
    ensures length == NrFrame.SymbolClock(fp, slot).Start(multiset(downlink)[true])
  {
    var txsymb := 0;
    for i := 0 to |downlink|
      invariant txsymb == multiset(downlink[..i])[true]
    {
      assert downlink[..i + 1] == downlink[..i] + [downlink[i]];
      if downlink[i] {
        txsymb := txsymb + 1;
      }
    }
    assert downlink[..|downlink|] == downlink;
    assert true in multiset(downlink);
    CountAtMost(downlink);
    NrFrame.MixedSlotLengthIsSymbolSum(fp, slot, txsymb);
    length := NrFrame.MixedSlotLength(fp, slot, txsymb);
  }

  lemma CountAtMost(s: seq<bool>)
    ensures multiset(s)[true] <= |s|
  {
    var rest := multiset(s)[true := 0];
    assert multiset(s) == rest[true := multiset(s)[true]];
    assert |multiset(s)| == |s|;
  }

  // --------------------------------------------- transmissions dropped at start

  /** `tx_func` gives up a slot whose time, divided by the slot's own length, is
      below the slots transmitted ahead. */
  predicate DroppedEarly(c: Clock, timestampTx: nat, slotTx: nat, slAhead: nat)
    requires c.Valid() && slotTx < |c.lens|
  {
    assert c.lens[slotTx] in c.lens;
    timestampTx / c.lens[slotTx] < slAhead
  }

  /** The transmission of received slot `rx` falls into a long slot, and the slots
      before it exceed the `slAhead` long ones by too little. */
  predicate TooEarly(fp: NrFrame.FrameParms, rx: nat, slAhead: nat, offset: nat)
    requires fp.mu <= 4
  {
    var u, perSubframe := NrFrame.Unit(fp), NrFrame.SlotsPerSubframe(fp.mu);
    && fp.mu > 0 && NrFrame.IsLongSlot(fp, rx + slAhead)
    && 1920 * (rx * u) + offset < (perSubframe - 2) * (slAhead * u)
  }

  /** For every received slot, distance and offset of the device's timestamps in their
      slots these are the transmissions given up. */
  lemma DroppedEarlyIff(fp: NrFrame.FrameParms, rx: nat, slAhead: nat, offset: nat)
    requires NrFrame.Valid(fp)
    ensures NrFrame.NrClock(fp).Valid()
    ensures var c := NrFrame.NrClock(fp);
      DroppedEarly(c, c.Start(rx + slAhead) + offset, c.SlotOf(rx + slAhead), slAhead)
      <==> TooEarly(fp, rx, slAhead, offset)
  {
    hide Clock.Start, Clock.SlotOf, Clock.FrameOf, NrFrame.IsLongSlot, NrFrame.Unit;
    NrFrame.NrClockValid(fp);
    var c := NrFrame.NrClock(fp);
    var l := c.Len(rx + slAhead);
    assert l in c.lens;
    QuotientBelow(c.Start(rx + slAhead) + offset, l, slAhead);
    NrFrame.StartAgainstLength(fp, rx + slAhead, slAhead, offset);
    Distribute(rx, slAhead, NrFrame.Unit(fp));
  }

  /** In particular none but that of slot 0 when at most 119 slots ahead. */
  lemma OnlyFirstDropped(fp: NrFrame.FrameParms, rx: nat, slAhead: nat, offset: nat)
    requires NrFrame.Valid(fp) && slAhead <= 119 && TooEarly(fp, rx, slAhead, offset)
    ensures rx == 0 && fp.mu >= 2
  {
    var u := NrFrame.Unit(fp);
    MulAtMost(slAhead, 119, u);
    if rx > 0 {
      MulAtMost(1, rx, u);
    }
  }

  lemma QuotientBelow(x: nat, d: nat, k: nat)
    requires d > 0
    ensures x / d < k <==> x < k * d
  {
    assert x == x / d * d + x % d;
    if x / d < k {
      MulStep(x / d, k, d);
    } else {
      MulAtMost(k, x / d, d);
    }
  }
}
