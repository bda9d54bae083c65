/** The receive and transmit sample streams of the NR UE: `UE_thread` reads the
    device in blocks that start after the first symbol of a slot, and hands one
    transmit block per slot to the device. */
module NrUeStream {
  import opened SlotClock
  import opened Wrappers
  import NrFrame

  /** `first` holds the lengths of the first symbols of the slots, `rxToTx` the
      number of slots from a received slot to the one sent in answer and
      `regularShift` the drift correction taken up again at every frame end. */
  datatype Config = Config(clock: Clock, first: Clock, rxToTx: nat, nTaOffset: int,
                           autonomousTa: bool, regularShift: int)
  {
    predicate Valid() {
      && clock.Valid()
      && rxToTx > 0
      && |first.lens| == |clock.lens|
      && (forall i :: 0 <= i < |first.lens| ==> first.lens[i] < clock.lens[i])
    }

    /** Samples from the second symbol of a slot to the end of the first symbol
        of the next; in the last slot of a frame only to the end of the slot. */
    function ReadBlockSize(slot: nat): int
      requires Valid() && slot < |clock.lens|
    {
      clock.lens[slot] - first.lens[slot] + if slot < |clock.lens| - 1 then first.lens[slot + 1] else 0
    }
  }

  lemma NrConfigValid(fp: NrFrame.FrameParms, cfg: Config)
    requires NrFrame.Valid(fp) && cfg.rxToTx > 0
    requires cfg.clock == NrFrame.NrClock(fp) && cfg.first == NrFrame.FirstSymbolClock(fp)
    ensures cfg.Valid()
  {
    NrFrame.NrClockValid(fp);
  }

  /** What happens around the reading of one slot: a drift measured by the
      receiver, and a timing advance command executed for it. */
  datatype SlotEvents = SlotEvents(drift: Option<int>, taCommand: int)

  datatype TxBlock = TxBlock(frame: nat, slot: nat, start: int, length: int)

  /** `position` is the place in the frame buffer, `time` the device's timestamp
      and `shift` the drift correction taken off the block. */
  datatype RxBlock = RxBlock(slot: nat, position: nat, time: int, length: int, shift: int)

  /** Each block starts where the one before ended. */
  ghost predicate Tiles(blocks: seq<TxBlock>) {
    forall i, j :: 0 <= i < j < |blocks| && j == i + 1 ==>
      blocks[j].start == blocks[i].start + blocks[i].length
  }

  ghost predicate Covers(b: TxBlock, t: int) {
    b.start <= t < b.start + b.length
  }

  // ------------------------------------------------- a run, slot by slot

  /** The stream between two slots: the next slot, the device's next sample, the drift
      correction pending, the timing advance in use and the one commanded. */
  datatype Stage = Stage(slot: nat, time: int, shift: int, advance: int, commanded: int)

  predicate IsLastSlot(cfg: Config, a: nat)
    requires cfg.Valid()
  {
    cfg.clock.SlotOf(a) == |cfg.clock.lens| - 1
  }

  /** The drift correction pending after the slots of `events`: the last one measured,
      or the regular one since the end of a frame took it up. */
  function ShiftPending(cfg: Config, b: Stage, events: seq<SlotEvents>): int
    requires cfg.Valid()
  {
    if events == [] then b.shift
    else
      var i := |events| - 1;
      match events[i].drift
      case Some(drift) => drift
      case None => if IsLastSlot(cfg, b.slot + i) then cfg.regularShift else ShiftPending(cfg, b, events[..i])
  }

  /** The correction applied in the `i`-th slot: what is pending, at the end of a frame. */
  function ShiftAt(cfg: Config, b: Stage, events: seq<SlotEvents>, i: nat): int
    requires cfg.Valid() && i <= |events|
  {
    if IsLastSlot(cfg, b.slot + i) then ShiftPending(cfg, b, events[..i]) else 0
  }

  /** The timing advance commanded after the slots of `events`. */
  function AdvancePending(cfg: Config, b: Stage, events: seq<SlotEvents>): int
    requires cfg.Valid()
    decreases |events|
  {
    if events == [] then b.commanded
    else
      var i := |events| - 1;
      var before := AdvancePending(cfg, b, events[..i]);
      before - (if cfg.autonomousTa then 2 * ShiftAt(cfg, b, events, i) else 0) + events[i].taCommand
  }

  /** The timing advance taken into use in the `i`-th slot. */
  function AdvanceTaken(cfg: Config, b: Stage, events: seq<SlotEvents>, i: nat): int
    requires cfg.Valid() && i < |events|
  {
    AdvancePending(cfg, b, events[..i]) - if cfg.autonomousTa then 2 * ShiftAt(cfg, b, events, i) else 0
  }

  /** The timing advance in use before it. */
  function AdvanceUsed(cfg: Config, b: Stage, events: seq<SlotEvents>, i: nat): int
    requires cfg.Valid() && i <= |events|
  {
    if i == 0 then b.advance else AdvanceTaken(cfg, b, events, i - 1)
  }

  /** The transmit block of the `i`-th slot, but for where it starts. */
  ghost predicate TxRight(cfg: Config, b: Stage, events: seq<SlotEvents>, i: nat, tx: TxBlock)
    requires cfg.Valid() && i < |events|
  {
    var m := b.slot + i + cfg.rxToTx;
    && tx.slot == cfg.clock.SlotOf(m) && tx.frame == cfg.clock.FrameOf(m) % 1024
    && tx.length == cfg.clock.Len(m) - ShiftAt(cfg, b, events, i)
                    - (AdvanceTaken(cfg, b, events, i) - AdvanceUsed(cfg, b, events, i))
  }

  /** The receive block of the `i`-th slot, but for its time. */
  ghost predicate RxRight(cfg: Config, b: Stage, events: seq<SlotEvents>, i: nat, rx: RxBlock)
    requires cfg.Valid() && i < |events|
  {
    && rx.slot == cfg.clock.SlotOf(b.slot + i)
    && rx.position == cfg.first.lens[rx.slot] + cfg.clock.Start(rx.slot)
    && rx.shift == ShiftAt(cfg, b, events, i)
    && rx.length == cfg.ReadBlockSize(rx.slot) - rx.shift
  }

  /** Samples that blocks take from the device; at the end of a frame the first symbol
      of the next is read as well. */
  function Consumed(cfg: Config, rxs: seq<RxBlock>): int
    requires cfg.Valid()
  {
    if rxs == [] then 0
    else
      var rx := rxs[|rxs| - 1];
      Consumed(cfg, rxs[..|rxs| - 1]) + rx.length
      + if rx.slot == |cfg.clock.lens| - 1 then cfg.first.lens[0] else 0
  }

  /** Each block is read when the ones before it have been. */
  ghost predicate ReadInTurn(cfg: Config, time: int, rxs: seq<RxBlock>)
    requires cfg.Valid()
  {
    forall i :: 0 <= i < |rxs| ==> rxs[i].time == time + Consumed(cfg, rxs[..i])
  }

  function TotalShift(rxs: seq<RxBlock>): int {
    if rxs == [] then 0 else TotalShift(rxs[..|rxs| - 1]) + rxs[|rxs| - 1].shift
  }

  class UeStream {
    const cfg: Config
    var deviceTime: int
    var absoluteSlot: int
    var timingAdvance: int
    var ueTimingAdvance: int
    var shiftForNextFrame: int
    ghost var sent: seq<TxBlock>

    ghost function Now(): Stage
      requires absoluteSlot >= -1
      reads this
    {
      Stage(absoluteSlot + 1, deviceTime, shiftForNextFrame, timingAdvance, ueTimingAdvance)
    }

    /** Where the next transmit block has to start: by the time its slot takes from the
        start of the next received slot on. */
    ghost function NextStart(): int
      requires cfg.Valid() && absoluteSlot >= -1
      reads this
    {
      var a := absoluteSlot + 1;
      deviceTime - cfg.first.Len(a) + cfg.clock.Start(a + cfg.rxToTx) - cfg.clock.Start(a)
      - cfg.nTaOffset - timingAdvance
    }

    /** Where in the frame buffer the next block is read to. */
    ghost function NextPosition(): int
      requires absoluteSlot >= -1 && cfg.Valid()
      reads this
    {
      var slot := cfg.clock.SlotOf(absoluteSlot + 1);
      cfg.first.lens[slot] + cfg.clock.Start(slot)
    }

    ghost predicate Valid()
      reads this
    {
      && cfg.Valid()
      && absoluteSlot >= -1
      && Tiles(sent)
      && (sent != [] ==> NextStart() == sent[|sent| - 1].start + sent[|sent| - 1].length)
    }

    /** The end of a resynchronisation: the first symbol of the frame is read and
        the slot counter is put just before the frame. */
    constructor Synchronise(cfg: Config, deviceTime: int, decodedFrame: nat, initialShift: int,
                            timingAdvance: int, ueTimingAdvance: int)
      requires cfg.Valid()
      ensures Valid() && this.cfg == cfg && sent == []
      ensures this.deviceTime == deviceTime + cfg.first.lens[0]
      ensures absoluteSlot == (decodedFrame + 1) % 1024 * |cfg.clock.lens| - 1
      ensures this.timingAdvance == timingAdvance && shiftForNextFrame == initialShift
      ensures this.ueTimingAdvance == ueTimingAdvance - if cfg.autonomousTa then 2 * initialShift else 0
    {
      this.cfg := cfg;
      shiftForNextFrame := initialShift;
      this.timingAdvance := timingAdvance;
      this.ueTimingAdvance := if cfg.autonomousTa then ueTimingAdvance - 2 * initialShift else ueTimingAdvance;
      this.deviceTime := deviceTime + cfg.first.lens[0];
      var frame := (decodedFrame + 1) % 1024;
      absoluteSlot := frame * |cfg.clock.lens| - 1;
      sent := [];
    }

    /** One slot of the stream in sync. */
    method ProcessSlot(e: SlotEvents) returns (tx: TxBlock, rx: RxBlock)
      requires Valid()
      modifies this
      ensures Valid() && absoluteSlot == old(absoluteSlot) + 1
      // transmission
      ensures sent == old(sent) + [tx]
      ensures tx.start == old(NextStart()) && NextStart() == tx.start + tx.length
      ensures tx.length == cfg.clock.Len(absoluteSlot + cfg.rxToTx) - rx.shift - (timingAdvance - old(timingAdvance))
      ensures tx.slot == cfg.clock.SlotOf(absoluteSlot + cfg.rxToTx)
      ensures tx.frame == cfg.clock.FrameOf(absoluteSlot + cfg.rxToTx) % 1024
      // reception
      ensures rx.time == old(deviceTime) && rx.slot == cfg.clock.SlotOf(absoluteSlot)
      ensures rx.position == old(NextPosition())
      ensures rx.length == cfg.ReadBlockSize(rx.slot) - rx.shift
      ensures rx.slot < |cfg.clock.lens| - 1 ==>
                && rx.shift == 0
                && NextPosition() == rx.position + rx.length
                && deviceTime == old(deviceTime) + rx.length
      ensures rx.slot == |cfg.clock.lens| - 1 ==>
                && rx.shift == old(shiftForNextFrame)
                && rx.position + rx.length == cfg.clock.FrameLength() - rx.shift
                && NextPosition() == cfg.first.lens[0]
                && deviceTime == old(deviceTime) + rx.length + cfg.first.lens[0]
      // timing advance
      ensures timingAdvance == ueTimingAdvance - e.taCommand
      ensures timingAdvance == old(ueTimingAdvance) - if cfg.autonomousTa then 2 * rx.shift else 0
      ensures shiftForNextFrame == match e.drift
              case Some(drift) => drift
              case None => if rx.slot == |cfg.clock.lens| - 1 then cfg.regularShift else old(shiftForNextFrame)
    {
      hide Clock.Start, Clock.SlotOf, Clock.FrameOf, Tiles;
      absoluteSlot := absoluteSlot + 1;
      var slot, slotTx, frameTx := SlotNumbers(cfg, absoluteSlot);
      rx := ReadSlot(slot);
      tx := PlanTransmission(slot, slotTx, frameTx, rx);
      if e.drift.Some? {
        shiftForNextFrame := e.drift.value;
      }
      ueTimingAdvance := ueTimingAdvance + e.taCommand;

      TilesAppend(sent, tx);
      sent := sent + [tx];
    }

    /** The drift correction and the reads of one slot. */
    method ReadSlot(slot: nat) returns (rx: RxBlock)
      requires cfg.Valid() && slot < |cfg.clock.lens|
      modifies `deviceTime, `ueTimingAdvance, `shiftForNextFrame
      ensures rx == RxBlock(slot, cfg.first.lens[slot] + cfg.clock.Start(slot), old(deviceTime),
                            cfg.ReadBlockSize(slot) - rx.shift, rx.shift)
      ensures rx.shift == if slot == |cfg.clock.lens| - 1 then old(shiftForNextFrame) else 0
      ensures deviceTime == old(deviceTime) + rx.length
                            + if slot == |cfg.clock.lens| - 1 then cfg.first.lens[0] else 0
      ensures ueTimingAdvance == old(ueTimingAdvance) - if cfg.autonomousTa then 2 * rx.shift else 0
      ensures shiftForNextFrame == if slot == |cfg.clock.lens| - 1 then cfg.regularShift else old(shiftForNextFrame)
    {
      var iqShift := 0;
      if slot == |cfg.clock.lens| - 1 {
        iqShift := shiftForNextFrame;
        if cfg.autonomousTa {
          ueTimingAdvance := ueTimingAdvance - 2 * shiftForNextFrame;
        }
        shiftForNextFrame := cfg.regularShift;
      }
      var position := GetSamplesSlotTimestamp(cfg.clock, slot, 0);
      rx := RxBlock(slot, cfg.first.lens[slot] + position, deviceTime,
        cfg.ReadBlockSize(slot) - iqShift, iqShift);
      deviceTime := deviceTime + rx.length;
      if slot == |cfg.clock.lens| - 1 {
        deviceTime := deviceTime + cfg.first.lens[0];
      }
    }

    /** Where the transmit block goes: its start still uses the timing advance of
        the slot before, its length already takes up the change. */
    method PlanTransmission(slot: nat, slotTx: nat, frameTx: nat, rx: RxBlock) returns (tx: TxBlock)
      requires cfg.Valid() && slot < |cfg.clock.lens| && slotTx < |cfg.clock.lens|
      modifies `timingAdvance
      ensures tx == TxBlock(frameTx, slotTx,
                rx.time + cfg.clock.Start(slot + cfg.rxToTx) - cfg.clock.Start(slot)
                  - cfg.first.lens[slot] - cfg.nTaOffset - old(timingAdvance),
                cfg.clock.lens[slotTx] - rx.shift - (timingAdvance - old(timingAdvance)))
      ensures timingAdvance == ueTimingAdvance
    {
      var ahead := GetSamplesSlotTimestamp(cfg.clock, slot, cfg.rxToTx);
      var start := rx.time + ahead - cfg.first.lens[slot] - cfg.nTaOffset - timingAdvance;
      var length := cfg.clock.lens[slotTx] - rx.shift;
      if ueTimingAdvance != timingAdvance {
        length := length - (ueTimingAdvance - timingAdvance);
        timingAdvance := ueTimingAdvance;
      }
      tx := TxBlock(frameTx, slotTx, start, length);
    }

    /** The corrections are those pending after the first `i` slots of a run. */
    ghost predicate Pending(begin: Stage, events: seq<SlotEvents>, i: nat)
      requires cfg.Valid() && i <= |events|
      reads this
    {
      && absoluteSlot == begin.slot - 1 + i
      && shiftForNextFrame == ShiftPending(cfg, begin, events[..i])
      && ueTimingAdvance == AdvancePending(cfg, begin, events[..i])
      && timingAdvance == AdvanceUsed(cfg, begin, events, i)
    }

    /** The `i`-th slot of a run. */
    method RunSlot(ghost begin: Stage, events: seq<SlotEvents>, i: nat) returns (tx: TxBlock, rx: RxBlock)
      requires Valid() && i < |events| && Pending(begin, events, i)
      modifies this
      ensures Valid() && Pending(begin, events, i + 1)
      ensures TxRight(cfg, begin, events, i, tx) && RxRight(cfg, begin, events, i, rx)
      ensures sent == old(sent) + [tx] && tx.start == old(NextStart())
      ensures rx.time == old(deviceTime)
      ensures deviceTime == rx.time + rx.length + if rx.slot == |cfg.clock.lens| - 1 then cfg.first.lens[0] else 0
    {
      hide Clock.Start, Clock.SlotOf, Clock.FrameOf, Tiles, ShiftPending, AdvancePending;
      NextEvent(cfg, begin, events, i);
      tx, rx := ProcessSlot(events[i]);
    }

    /** Any number of slots in sync, whatever happens around them. */
    method Run(events: seq<SlotEvents>) returns (txs: seq<TxBlock>, rxs: seq<RxBlock>)
      requires Valid()
      modifies this
      ensures Valid() && absoluteSlot == old(absoluteSlot) + |events|
      ensures |txs| == |rxs| == |events|
      // transmission: one stretch of blocks, of the right slots and lengths
      ensures sent == old(sent) + txs
      ensures Tiles(txs) && (txs != [] ==> txs[0].start == old(NextStart()))
      ensures forall i :: 0 <= i < |txs| ==> TxRight(cfg, old(Now()), events, i, txs[i])
      // reception: one stretch of the device's time, to the right places
      ensures forall i :: 0 <= i < |rxs| ==> RxRight(cfg, old(Now()), events, i, rxs[i])
      ensures ReadInTurn(cfg, old(deviceTime), rxs)
      ensures deviceTime == old(deviceTime) + Consumed(cfg, rxs)
      ensures forall k: nat :: |events| == k * |cfg.clock.lens| ==>
                Consumed(cfg, rxs) == k * cfg.clock.FrameLength() - TotalShift(rxs)
      // what is pending for the next slot
      ensures shiftForNextFrame == ShiftPending(cfg, old(Now()), events)
      ensures ueTimingAdvance == AdvancePending(cfg, old(Now()), events)
      ensures timingAdvance == AdvanceUsed(cfg, old(Now()), events, |events|)
    {
      hide Clock.Start, Clock.SlotOf, Clock.FrameOf, Tiles, TxRight, RxRight, Pending, ReadInTurn, Consumed;
      ghost var begin := Now();
      txs, rxs := [], [];
      PendingAtFirst(events);
      ReadNothing(cfg, begin.time);
      while |rxs| < |events|
        invariant Valid() && |txs| == |rxs| <= |events| && Pending(begin, events, |rxs|)
        invariant sent == old(sent) + txs
        invariant if txs == [] then NextStart() == old(NextStart()) else txs[0].start == old(NextStart())
        invariant forall i :: 0 <= i < |txs| ==> TxRight(cfg, begin, events, i, txs[i])
        invariant forall i :: 0 <= i < |rxs| ==> RxRight(cfg, begin, events, i, rxs[i])
        invariant ReadInTurn(cfg, begin.time, rxs)
        invariant deviceTime == begin.time + Consumed(cfg, rxs)
      {
        var i := |rxs|;
        var tx, rx := RunSlot(begin, events, i);
        ReadNext(cfg, begin.time, rxs, rx);
        txs, rxs := txs + [tx], rxs + [rx];
      }
      PendingAtLast(begin, events);
      TilesSuffix(old(sent), txs);
      WholeFrames(cfg, begin, events, rxs);
    }

    lemma PendingAtFirst(events: seq<SlotEvents>)
      requires cfg.Valid() && absoluteSlot >= -1
      ensures Pending(Now(), events, 0)
    {
    }

    lemma PendingAtLast(begin: Stage, events: seq<SlotEvents>)
      requires cfg.Valid() && Pending(begin, events, |events|)
      ensures absoluteSlot == begin.slot - 1 + |events|
      ensures shiftForNextFrame == ShiftPending(cfg, begin, events)
      ensures ueTimingAdvance == AdvancePending(cfg, begin, events)
      ensures timingAdvance == AdvanceUsed(cfg, begin, events, |events|)
    {
      assert events[..|events|] == events;
    }
  }

  /** What one more slot adds to the pending corrections. */
  lemma NextEvent(cfg: Config, b: Stage, events: seq<SlotEvents>, i: nat)
    requires cfg.Valid() && i < |events|
    ensures var e, shift := events[i], ShiftAt(cfg, b, events, i);
      && ShiftPending(cfg, b, events[..i + 1]) ==
         (match e.drift
          case Some(drift) => drift
          case None => if IsLastSlot(cfg, b.slot + i) then cfg.regularShift else ShiftPending(cfg, b, events[..i]))
      && AdvancePending(cfg, b, events[..i + 1]) == AdvanceTaken(cfg, b, events, i) + e.taCommand
      && AdvanceUsed(cfg, b, events, i + 1) == AdvanceTaken(cfg, b, events, i)
  {
    assert events[..i + 1][..i] == events[..i];
  }

  /** Blocks of consecutive slots take the time of the slots, less the shifts; both
      ends lie after the first symbol of a slot. */
  lemma {:induction false} Telescope(cfg: Config, b: Stage, events: seq<SlotEvents>, rxs: seq<RxBlock>)
    requires cfg.Valid() && |rxs| <= |events|
    requires forall i :: 0 <= i < |rxs| ==> RxRight(cfg, b, events, i, rxs[i])
    ensures var c, a := b.slot, b.slot + |rxs|;
      Consumed(cfg, rxs) == cfg.clock.Start(a) - cfg.clock.Start(c)
                            + cfg.first.Len(a) - cfg.first.Len(c) - TotalShift(rxs)
  {
    if rxs != [] {
      hide Clock.Start, Clock.SlotOf, Clock.FrameOf, RxRight;
      var i := |rxs| - 1;
      Telescope(cfg, b, events, rxs[..i]);
      OneRead(cfg, b, events, i, rxs[i]);
    }
  }

  lemma OneRead(cfg: Config, b: Stage, events: seq<SlotEvents>, i: nat, rx: RxBlock)
    requires cfg.Valid() && i < |events| && RxRight(cfg, b, events, i, rx)
    ensures var a := b.slot + i;
      rx.length + (if rx.slot == |cfg.clock.lens| - 1 then cfg.first.lens[0] else 0)
      == cfg.clock.Start(a + 1) - cfg.clock.Start(a) + cfg.first.Len(a + 1) - cfg.first.Len(a) - rx.shift
  {
    hide Clock.Start, Clock.SlotOf, Clock.FrameOf;
    var a := b.slot + i;
    StartStep(cfg.clock, a);
    SlotAndFrame(cfg.clock, a);
    SlotAndFrame(cfg.first, a);
    NextSlot(cfg.first, a);
  }

  lemma WholeFrames(cfg: Config, b: Stage, events: seq<SlotEvents>, rxs: seq<RxBlock>)
    requires cfg.Valid() && |rxs| == |events|
    requires forall i :: 0 <= i < |rxs| ==> RxRight(cfg, b, events, i, rxs[i])
    ensures forall k: nat :: |events| == k * |cfg.clock.lens| ==>
              Consumed(cfg, rxs) == k * cfg.clock.FrameLength() - TotalShift(rxs)
  {
    hide Clock.Start, Clock.SlotOf, RxRight, Consumed;
    Telescope(cfg, b, events, rxs);
    forall k: nat | |events| == k * |cfg.clock.lens|
      ensures Consumed(cfg, rxs) == k * cfg.clock.FrameLength() - TotalShift(rxs)
    {
      FramesApart(cfg, b.slot, k);
    }
  }

  lemma ReadNothing(cfg: Config, time: int)
    requires cfg.Valid()
    ensures ReadInTurn(cfg, time, []) && Consumed(cfg, []) == 0
  {
  }

  lemma ReadNext(cfg: Config, time: int, rxs: seq<RxBlock>, rx: RxBlock)
    requires cfg.Valid() && ReadInTurn(cfg, time, rxs) && rx.time == time + Consumed(cfg, rxs)
    ensures ReadInTurn(cfg, time, rxs + [rx])
    ensures Consumed(cfg, rxs + [rx]) ==
            Consumed(cfg, rxs) + rx.length + if rx.slot == |cfg.clock.lens| - 1 then cfg.first.lens[0] else 0
  {
    assert (rxs + [rx])[..|rxs|] == rxs;
    assert forall j :: 0 <= j < |rxs| ==> (rxs + [rx])[..j] == rxs[..j];
  }

  /** In the frame buffer the blocks of a run follow one another from the end of the
      first symbol to the end of the frame, less the shift. */
  lemma BufferFilled(cfg: Config, b: Stage, events: seq<SlotEvents>, i: nat, rx: RxBlock, next: RxBlock)
    requires cfg.Valid() && i + 1 < |events|
    requires RxRight(cfg, b, events, i, rx) && RxRight(cfg, b, events, i + 1, next)
    ensures rx.slot < |cfg.clock.lens| - 1 ==> rx.shift == 0 && next.position == rx.position + rx.length
    ensures rx.slot == |cfg.clock.lens| - 1 ==>
              rx.position + rx.length == cfg.clock.FrameLength() - rx.shift && next.position == cfg.first.lens[0]
  {
    hide Clock.Start, Clock.SlotOf, Clock.FrameOf;
    var a := b.slot + i;
    NextSlot(cfg.clock, a);
    StartStep(cfg.clock, rx.slot);
    FrameDown(cfg.clock, rx.slot);
  }

  lemma TilesSuffix(front: seq<TxBlock>, back: seq<TxBlock>)
    requires Tiles(front + back)
    ensures Tiles(back)
  {
    var all := front + back;
    forall i, j | 0 <= i < j < |back| && j == i + 1
      ensures back[j].start == back[i].start + back[i].length
    {
      assert back[i] == all[|front| + i] && back[j] == all[|front| + j];
    }
  }

  /** Slot numbers of an iteration of the loop: the received slot and the one to
      send, with what they say about lengths. */
  method SlotNumbers(cfg: Config, a: nat) returns (s: nat, slotTx: nat, frameTx: nat)
    requires cfg.Valid()
    ensures s == cfg.clock.SlotOf(a) == cfg.first.SlotOf(a)
    ensures cfg.clock.Start(a + 1) == cfg.clock.Start(a) + cfg.clock.lens[s]
    ensures cfg.clock.Start(s + 1) == cfg.clock.Start(s) + cfg.clock.lens[s] && cfg.clock.Start(0) == 0
    ensures slotTx == cfg.clock.SlotOf(a + cfg.rxToTx) && frameTx == cfg.clock.FrameOf(a + cfg.rxToTx) % 1024
    ensures cfg.clock.Start(a + cfg.rxToTx + 1) == cfg.clock.Start(a + cfg.rxToTx) + cfg.clock.lens[slotTx]
    ensures cfg.clock.Start(s + cfg.rxToTx) - cfg.clock.Start(s) == cfg.clock.Start(a + cfg.rxToTx) - cfg.clock.Start(a)
    ensures cfg.clock.SlotOf(a + 1) == cfg.first.SlotOf(a + 1) == if s < |cfg.clock.lens| - 1 then s + 1 else 0
  {
    hide Clock.Start, Clock.SlotOf, Clock.FrameOf;
    s := a % |cfg.clock.lens|;
    slotTx := (a + cfg.rxToTx) % |cfg.clock.lens|;
    frameTx := (a + cfg.rxToTx) / |cfg.clock.lens| % 1024;
    StartStep(cfg.clock, a);
    StartStep(cfg.clock, a + cfg.rxToTx);
    SlotAndFrame(cfg.clock, a);
    SlotAndFrame(cfg.first, a);
    SlotAndFrame(cfg.clock, a + cfg.rxToTx);
    NextSlot(cfg.clock, a);
    NextSlot(cfg.first, a);
    WindowInFrame(cfg.clock, a, cfg.rxToTx);
    WindowInFrame(cfg.clock, a, 1);
  }

  lemma FramesApart(cfg: Config, a: nat, k: nat)
    requires cfg.Valid()
    ensures cfg.clock.Start(a + k * |cfg.clock.lens|) - cfg.clock.Start(a) == k * cfg.clock.FrameLength()
    ensures cfg.first.Len(a + k * |cfg.clock.lens|) == cfg.first.Len(a)
  {
    ShiftByFrames(cfg.clock, k, a);
    ShiftByFrames(cfg.first, k, a);
  }

  /** Blocks that tile leave no sample out and send none twice: each sample time
      of the stretch lies in exactly one of them. */
  lemma TilesCoverOnce(blocks: seq<TxBlock>, t: int)
    requires Tiles(blocks) && |blocks| > 0
    requires forall b :: b in blocks ==> b.length >= 0
    requires blocks[0].start <= t < blocks[|blocks| - 1].start + blocks[|blocks| - 1].length
    ensures exists i :: 0 <= i < |blocks| && Covers(blocks[i], t)
              && forall j :: 0 <= j < |blocks| && Covers(blocks[j], t) ==> j == i
  {
    var i := CoverIndex(blocks, t);
    StartsGrow(blocks);
    forall j | 0 <= j < |blocks| && Covers(blocks[j], t)
      ensures j == i
    {
      if i < j {
        assert false;
      } else if j < i {
        assert false;
      }
    }
  }

  lemma TilesAppend(blocks: seq<TxBlock>, b: TxBlock)
    requires Tiles(blocks)
    requires blocks != [] ==> b.start == blocks[|blocks| - 1].start + blocks[|blocks| - 1].length
    ensures Tiles(blocks + [b])
  {
  }

  lemma {:induction false} CoverIndex(blocks: seq<TxBlock>, t: int) returns (i: nat)
    requires Tiles(blocks) && |blocks| > 0
    requires blocks[0].start <= t < blocks[|blocks| - 1].start + blocks[|blocks| - 1].length
    ensures i < |blocks| && Covers(blocks[i], t)
  {
    i := |blocks| - 1;
    if t < blocks[i].start {
      assert blocks[i].start == blocks[i - 1].start + blocks[i - 1].length;
      i := CoverIndex(blocks[..i], t);
    }
  }

  lemma {:induction false} StartsGrow(blocks: seq<TxBlock>)
    requires Tiles(blocks) && forall b :: b in blocks ==> b.length >= 0
    ensures forall i, j :: 0 <= i < j < |blocks| ==> blocks[i].start + blocks[i].length <= blocks[j].start
  {
    if |blocks| > 0 {
      var last := |blocks| - 1;
      var front := blocks[..last];
      assert forall b :: b in front ==> b in blocks;
      StartsGrow(front);
      forall i | 0 <= i < last
        ensures blocks[i].start + blocks[i].length <= blocks[last].start
      {
        assert blocks[i] == front[i] && blocks[last - 1] == front[last - 1];
        assert front[last - 1] in blocks && front[last - 1].length >= 0;
      }
    }
  }
}
