/** NR frame parameters: slot and symbol lengths in samples. */
module NrFrame {
  import opened Bits
  import opened Modular
  import opened SlotClock

  const SYMBOLS_PER_SLOT := 14

  /** The fields that every length below is computed from.  `mu` is the
      numerology index; the slot has the fourteen symbols of the normal prefix. */
  datatype FrameParms = FrameParms(mu: nat, symbolSize: nat, prefix: nat, prefix0: nat)

  function SlotsPerSubframe(mu: nat): nat {
    match mu
    case 0 => 1
    case 1 => 2
    case 2 => 4
    case 3 => 8
    case _ => 16
  }

  /** There are 2^mu slots in a subframe. */
  lemma SlotsPerSubframeIsPower(mu: nat)
    requires mu <= 4
    ensures SlotsPerSubframe(mu) == Pow2(mu)
  {
    assert Pow2(1) == 2 && Pow2(2) == 4;
    assert Pow2(3) == 2 * Pow2(2) && Pow2(4) == 2 * Pow2(3);
  }

  /** What `set_scs_parameters` establishes, for any FFT size it can choose. */
  predicate Valid(fp: FrameParms) {
    && fp.mu <= 4
    && fp.symbolSize > 0
    && fp.symbolSize % 128 == 0
    && fp.prefix == fp.symbolSize / 128 * 9
    && fp.prefix0 == fp.symbolSize / 128 * (9 + Pow2(fp.mu))
  }

  function SlotsPerFrame(fp: FrameParms): nat {
    10 * SlotsPerSubframe(fp.mu)
  }

  function LongSymbol(fp: FrameParms): nat {
    fp.symbolSize + fp.prefix0
  }

  function ShortSymbol(fp: FrameParms): nat {
    fp.symbolSize + fp.prefix
  }

  function SamplesPerSlotN0(fp: FrameParms): nat {
    ShortSymbol(fp) * SYMBOLS_PER_SLOT
  }

  function SamplesPerSlot0(fp: FrameParms): nat {
    fp.prefix0 + (SYMBOLS_PER_SLOT - 1) * fp.prefix + SYMBOLS_PER_SLOT * fp.symbolSize
  }

  function SamplesPerSubframe(fp: FrameParms): nat {
    LongSymbol(fp) * 2 + ShortSymbol(fp) * (SYMBOLS_PER_SLOT * SlotsPerSubframe(fp.mu) - 2)
  }

  /** Slots from one long slot to the next. */
  function HalfSubframe(mu: nat): (half: nat)
    requires mu > 0
    ensures half > 0 && SlotsPerSubframe(mu) == 2 * half
  {
    SlotsPerSubframe(mu) / 2
  }

  predicate IsLongSlot(fp: FrameParms, slot: nat)
    requires fp.mu > 0
  {
    slot % HalfSubframe(fp.mu) == 0
  }

  function SamplesPerSlot(fp: FrameParms, slot: nat): nat {
    if fp.mu == 0 then SamplesPerSubframe(fp)
    else if IsLongSlot(fp, slot) then SamplesPerSlot0(fp) else SamplesPerSlotN0(fp)
  }

  function FirstSymbolSamples(fp: FrameParms, slot: nat): nat {
    if fp.mu == 0 then fp.prefix0 + fp.symbolSize
    else (if IsLongSlot(fp, slot) then fp.prefix0 else fp.prefix) + fp.symbolSize
  }

  function NrClock(fp: FrameParms): (c: Clock)
    ensures |c.lens| == SlotsPerFrame(fp)
  {
    Clock(seq(SlotsPerFrame(fp), (slot: nat) => SamplesPerSlot(fp, slot)))
  }

  function FirstSymbolClock(fp: FrameParms): (c: Clock)
    ensures |c.lens| == SlotsPerFrame(fp)
  {
    Clock(seq(SlotsPerFrame(fp), (slot: nat) => FirstSymbolSamples(fp, slot)))
  }

  // ------------------------------------------------------------------ symbols

  /** Section 5.3.1 of TS 38.211: within a subframe the symbols numbered 0 and
      7 * 2^mu carry the long prefix. */
  predicate HasLongPrefix(mu: nat, slot: nat, symbol: nat) {
    var l := slot % Pow2(mu) * SYMBOLS_PER_SLOT + symbol;
    l == 0 || l == 7 * Pow2(mu)
  }

  /** Symbol lengths of one slot, by the standard's rule. */
  function SymbolClock(fp: FrameParms, slot: nat): (c: Clock)
    ensures |c.lens| == SYMBOLS_PER_SLOT
  {
    Clock(seq(SYMBOLS_PER_SLOT, (symbol: nat) =>
      if HasLongPrefix(fp.mu, slot, symbol) then LongSymbol(fp) else ShortSymbol(fp)))
  }

  /** The burst length `tx_rf` gives a mixed slot with `txsymb` downlink symbols. */
  function MixedSlotLength(fp: FrameParms, slot: nat, txsymb: nat): int
    requires txsymb > 0
  {
    if fp.mu == 0 then
      if txsymb <= 7 then LongSymbol(fp) + (txsymb - 1) * ShortSymbol(fp)
      else 2 * LongSymbol(fp) + (txsymb - 2) * ShortSymbol(fp)
    else if !IsLongSlot(fp, slot) then txsymb * ShortSymbol(fp)
    else LongSymbol(fp) + (txsymb - 1) * ShortSymbol(fp)
  }

  lemma LongPrefixPlaces(mu: nat, slot: nat, symbol: nat)
    requires mu <= 4 && symbol < SYMBOLS_PER_SLOT
    ensures HasLongPrefix(mu, slot, symbol) <==>
            if mu == 0 then symbol == 0 || symbol == 7 else slot % HalfSubframe(mu) == 0 && symbol == 0
  {
    if mu > 0 {
      var half := HalfSubframe(mu);
      var r := slot % SlotsPerSubframe(mu);
      ModOfMod(slot, 2, half);
      assert r % half == slot % half && r < 2 * half;
      if r < half {
        DivModUnique(r, half, 0, r);
      } else {
        DivModUnique(r, half, 1, r - half);
      }
    }
  }

  /** The closed form is the sum over the symbols sent. */
  lemma MixedSlotLengthIsSymbolSum(fp: FrameParms, slot: nat, txsymb: nat)
    requires fp.mu <= 4 && 1 <= txsymb <= SYMBOLS_PER_SLOT
    ensures MixedSlotLength(fp, slot, txsymb) == SymbolClock(fp, slot).Start(txsymb)
  {
    var c, long, short := SymbolClock(fp, slot), LongSymbol(fp), ShortSymbol(fp);
    forall i: nat | i < txsymb
      ensures c.lens[i] == if (if fp.mu == 0 then i == 0 || i == 7 else IsLongSlot(fp, slot) && i == 0)
                           then long else short
    {
      LongPrefixPlaces(fp.mu, slot, i);
    }
    if fp.mu == 0 && txsymb > 7 {
      StartTwoLong(c, txsymb, 7, long, short);
    } else if fp.mu == 0 || IsLongSlot(fp, slot) {
      StartOneLong(c, txsymb, long, short);
    } else {
      StartEqual(c, txsymb, short);
    }
  }

  /** Every further symbol lengthens the burst by exactly that symbol, so the
      length grows strictly; one symbol is what the UE takes for the first
      symbol of a slot and fourteen are the whole slot. */
  lemma MixedSlotLengthLaws(fp: FrameParms, slot: nat, txsymb: nat)
    requires Valid(fp) && 1 <= txsymb < SYMBOLS_PER_SLOT
    ensures MixedSlotLength(fp, slot, txsymb + 1)
         == MixedSlotLength(fp, slot, txsymb) + SymbolClock(fp, slot).lens[txsymb]
    ensures MixedSlotLength(fp, slot, txsymb + 1) > MixedSlotLength(fp, slot, txsymb)
    ensures MixedSlotLength(fp, slot, 1) == FirstSymbolSamples(fp, slot)
    ensures MixedSlotLength(fp, slot, SYMBOLS_PER_SLOT) == SamplesPerSlot(fp, slot)
  {
    hide Pow2, HasLongPrefix, Clock.Start, Clock.SlotOf;
    MixedSlotLengthIsSymbolSum(fp, slot, txsymb);
    MixedSlotLengthIsSymbolSum(fp, slot, txsymb + 1);
    StartStep(SymbolClock(fp, slot), txsymb);
    FrameDown(SymbolClock(fp, slot), txsymb);
  }

  // ------------------------------------------------------------------- frames

  /** The length functions take any slot number; those of later frames repeat. */
  lemma {:induction false} LengthsRepeat(fp: FrameParms, a: nat)
    requires fp.mu <= 4
    ensures SamplesPerSlot(fp, a) == NrClock(fp).Len(a)
    ensures FirstSymbolSamples(fp, a) == FirstSymbolClock(fp).Len(a)
  {
    var n := SlotsPerFrame(fp);
    if a >= n {
      LengthsRepeat(fp, a - n);
      if fp.mu > 0 {
        AddMultiple(a - n, 20, HalfSubframe(fp.mu));
      }
    }
  }

  lemma NrClockValid(fp: FrameParms)
    requires fp.mu <= 4 && fp.symbolSize > 0
    ensures NrClock(fp).Valid() && FirstSymbolClock(fp).Valid()
    ensures forall slot: nat :: slot < SlotsPerFrame(fp) ==> FirstSymbolClock(fp).lens[slot] < NrClock(fp).lens[slot]
  {
  }

  /** Long slots among the first `k`. */
  function LongSlots(mu: nat, k: nat): (n: nat)
    requires mu > 0
  {
    if k == 0 then 0
    else LongSlots(mu, k - 1) + if (k - 1) % HalfSubframe(mu) == 0 then 1 else 0
  }

  /** One starts every half subframe. */
  lemma {:induction false} LongSlotsEvenly(mu: nat, k: nat)
    requires mu > 0
    ensures LongSlots(mu, k) == k / HalfSubframe(mu) + if k % HalfSubframe(mu) == 0 then 0 else 1
  {
    hide HalfSubframe;
    var half := HalfSubframe(mu);
    if k > 0 {
      LongSlotsEvenly(mu, k - 1);
      Successor(k - 1, half);
    } else {
      DivModUnique(0, half, 0, 0);
    }
  }

  /** Start times: as many short slots, and the excess of the long ones among them. */
  lemma {:induction false} StartWithLong(fp: FrameParms, k: nat)
    requires 0 < fp.mu <= 4
    ensures NrClock(fp).Start(k) == k * SamplesPerSlotN0(fp) + LongSlots(fp.mu, k) * (fp.prefix0 - fp.prefix)
  {
    hide Clock.Start, Clock.SlotOf;
    StartStep(NrClock(fp), 0);
    if k > 0 {
      StartWithLong(fp, k - 1);
      StartStep(NrClock(fp), k - 1);
      LengthsRepeat(fp, k - 1);
      var short, excess, n := SamplesPerSlotN0(fp), fp.prefix0 - fp.prefix, LongSlots(fp.mu, k - 1);
      assert SamplesPerSlot0(fp) == short + excess;
      Distribute(k - 1, 1, short);
      Distribute(n, 1, excess);
    }
  }

  lemma {:induction false} EqualSlots(fp: FrameParms, k: nat)
    requires fp.mu == 0
    ensures NrClock(fp).Start(k) == k * SamplesPerSubframe(fp)
  {
    hide Clock.Start, Clock.SlotOf;
    StartStep(NrClock(fp), 0);
    if k > 0 {
      EqualSlots(fp, k - 1);
      StartStep(NrClock(fp), k - 1);
      LengthsRepeat(fp, k - 1);
      Distribute(k - 1, 1, SamplesPerSubframe(fp));
    }
  }

  /** The slots of a frame add up to what the code stores as ten times the
      samples of a subframe. */
  lemma FrameLengthIsTenSubframes(fp: FrameParms)
    requires fp.mu <= 4
    ensures NrClock(fp).FrameLength() == 10 * SamplesPerSubframe(fp)
  {
    if fp.mu == 0 {
      EqualSlots(fp, 10);
    } else {
      var half := HalfSubframe(fp.mu);
      StartWithLong(fp, SlotsPerFrame(fp));
      LongSlotsEvenly(fp.mu, 20 * half);
      DivModUnique(20 * half, half, 20, 0);
      HalvesAddUp(fp.mu, fp.symbolSize, fp.prefix, fp.prefix0);
    }
  }

  lemma HalvesAddUp(mu: nat, size: nat, prefix: nat, prefix0: nat)
    requires 0 < mu <= 4
    ensures 20 * HalfSubframe(mu) * ((size + prefix) * 14) + 20 * (prefix0 - prefix)
            == 10 * ((size + prefix0) * 2 + (size + prefix) * (14 * SlotsPerSubframe(mu) - 2))
  {
  }

  /** At the sampling rate of 15 kHz times 2^mu times the symbol size a subframe lasts
      one millisecond, and a frame has ten times 2^mu slots. */
  lemma SubframeIsOneMillisecond(fp: FrameParms)
    requires Valid(fp)
    ensures SamplesPerSubframe(fp) == 15 * Pow2(fp.mu) * fp.symbolSize
    ensures |NrClock(fp).lens| == |FirstSymbolClock(fp).lens| == 10 * Pow2(fp.mu)
  {
    hide Pow2;
    SlotsPerSubframeIsPower(fp.mu);
    var u := fp.symbolSize / 128;
    assert fp.symbolSize == 128 * u;
    MillisecondProducts(Pow2(fp.mu), u);
  }

  lemma MillisecondProducts(n: nat, u: nat)
    ensures (128 * u + u * (9 + n)) * 2 + (128 * u + u * 9) * (14 * n - 2) == 15 * n * (128 * u)
  {
    assert (128 * u + u * 9) * (14 * n - 2) == 137 * 14 * (u * n) - 274 * u;
  }

  // ------------------------------------------------ start times, against length

  /** Samples are counted in units of the symbol size over 128. */
  function Unit(fp: FrameParms): nat {
    fp.symbolSize / 128
  }

  lemma LengthsInUnits(fp: FrameParms)
    requires Valid(fp)
    ensures SamplesPerSlotN0(fp) == 1918 * Unit(fp)
    ensures SamplesPerSlot0(fp) == (1918 + SlotsPerSubframe(fp.mu)) * Unit(fp)
    ensures fp.prefix0 - fp.prefix == SlotsPerSubframe(fp.mu) * Unit(fp)
  {
    var u := Unit(fp);
    assert fp.symbolSize == 128 * u;
    assert fp.prefix0 == 9 * u + SlotsPerSubframe(fp.mu) * u;
  }

  lemma Regroup(k: int, c: int, u: int)
    ensures k * (c * u) == c * (k * u)
  {
  }

  /** A long slot starts where the slots before it had all been of 1920 units. */
  lemma LongSlotStart(fp: FrameParms, k: nat)
    requires Valid(fp) && 0 < fp.mu <= 4 && k % HalfSubframe(fp.mu) == 0
    ensures NrClock(fp).Start(k) == 1920 * (k * Unit(fp))
  {
    hide *;
    var n := LongSlots(fp.mu, k);
    StartWithLong(fp, k);
    LengthsInUnits(fp);
    LongAmong(fp.mu, k);
    LongProducts(k, n, HalfSubframe(fp.mu), Unit(fp));
  }

  lemma LongAmong(mu: nat, k: nat)
    requires mu > 0 && k % HalfSubframe(mu) == 0
    ensures LongSlots(mu, k) * HalfSubframe(mu) == k && SlotsPerSubframe(mu) == 2 * HalfSubframe(mu)
  {
    hide HalfSubframe;
    LongSlotsEvenly(mu, k);
  }

  lemma LongProducts(k: nat, n: nat, half: nat, u: nat)
    requires n * half == k
    ensures k * (1918 * u) + n * (2 * half * u) == 1920 * (k * u)
  {
    assert n * (2 * half * u) == 2 * (n * half) * u;
  }

  /** A slot's start against `n` times its own length: at least as much for a short
      slot; for a long one a matter of simple products. */
  lemma StartAgainstLength(fp: FrameParms, k: nat, n: nat, offset: nat)
    requires Valid(fp) && n <= k
    ensures NrClock(fp).Start(k) + offset < n * NrClock(fp).Len(k) <==>
            && fp.mu > 0 && IsLongSlot(fp, k)
            && 1920 * (k * Unit(fp)) + offset < (1918 + SlotsPerSubframe(fp.mu)) * (n * Unit(fp))
  {
    hide Clock.Start, Clock.SlotOf, Clock.Len, NrClock, SamplesPerSlotN0, SamplesPerSlot0, SamplesPerSubframe, Unit;
    hide LongSlots, HalfSubframe;
    LengthsRepeat(fp, k);
    LengthsInUnits(fp);
    if fp.mu == 0 {
      EqualSlots(fp, k);
      MulAtMost(n, k, SamplesPerSubframe(fp));
    } else if IsLongSlot(fp, k) {
      LongSlotStart(fp, k);
      Regroup(n, 1918 + SlotsPerSubframe(fp.mu), Unit(fp));
    } else {
      StartWithLong(fp, k);
      MulAtMost(n, k, SamplesPerSlotN0(fp));
      MulAtMost(0, LongSlots(fp.mu, k), SlotsPerSubframe(fp.mu) * Unit(fp));
    }
  }
}
