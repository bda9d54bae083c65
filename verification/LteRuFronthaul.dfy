/** Reassembly of LTE uplink subframes from symbol packets.  Packets of several
    subframes may be interleaved; each subframe number has a mask of the symbols
    received, and the radio thread waits for one subframe at a time. */
module LteRuFronthaul {
  import opened Bits

  /** A symbol, a tick that stands for a whole subframe, a PRACH packet, or any packet
      that comes in when the unit is told to stop. */
  datatype Packet =
    | Pulfft(frame: nat, sf: nat, symbol: nat)
    | PulTick(frame: nat, sf: nat)
    | Prach(frame: nat, sf: nat)
    | Stopping(frame: nat, sf: nat)

  predicate ValidPackets(packets: seq<Packet>) {
    forall i :: 0 <= i < |packets| ==> packets[i].sf < 10
  }

  const TICK: nat := 0xffff

  /** A tick sets the sixteen low bits and no other. */
  lemma TickSets(i: nat)
    ensures HasBit(TICK, i) <==> i < 16
  {
    if i < 16 {
      SixteenBits(i);
    } else {
      SixteenIsAll(i);
    }
  }

  /** The masks after a packet. */
  function Arrive(masks: seq<nat>, p: Packet): (r: seq<nat>)
    requires |masks| == 10 && p.sf < 10
    ensures |r| == 10
  {
    match p
    case Pulfft(_, sf, symbol) => masks[sf := SetBit(masks[sf], symbol)]
    case PulTick(_, sf) => masks[sf := TICK]
    case Prach(_, _) => masks
    case Stopping(_, _) => masks
  }

  function Masks(masks: seq<nat>, packets: seq<Packet>): (r: seq<nat>)
    requires |masks| == 10 && ValidPackets(packets)
    ensures |r| == 10
  {
    if packets == [] then masks
    else Arrive(Masks(masks, packets[..|packets| - 1]), packets[|packets| - 1])
  }

  ghost predicate Ticked(packets: seq<Packet>, sf: nat) {
    exists i :: 0 <= i < |packets| && packets[i].PulTick? && packets[i].sf == sf
  }

  ghost predicate Came(packets: seq<Packet>, sf: nat, symbol: nat) {
    exists i :: 0 <= i < |packets| && packets[i].Pulfft? && packets[i].sf == sf && packets[i].symbol == symbol
  }

  lemma LastPacket(packets: seq<Packet>, sf: nat, symbol: nat)
    requires packets != []
    ensures var last, front := packets[|packets| - 1], packets[..|packets| - 1];
      && (Ticked(packets, sf) <==> Ticked(front, sf) || (last.PulTick? && last.sf == sf))
      && (Came(packets, sf, symbol) <==>
            Came(front, sf, symbol) || (last.Pulfft? && last.sf == sf && last.symbol == symbol))
  {
    var n := |packets| - 1;
    assert forall i :: 0 <= i < n ==> packets[i] == packets[..n][i];
    if packets[n].PulTick? && packets[n].sf == sf {
      assert Ticked(packets, sf);
    }
    if packets[n].Pulfft? && packets[n].sf == sf && packets[n].symbol == symbol {
      assert Came(packets, sf, symbol);
    }
  }

  /** Without a tick the mask of a subframe is its old mask and the symbols that came,
      in whatever order and between whatever other packets. */
  lemma {:induction false} MaskIsSymbols(masks: seq<nat>, packets: seq<Packet>, sf: nat, symbol: nat)
    requires |masks| == 10 && ValidPackets(packets) && sf < 10 && !Ticked(packets, sf)
    ensures HasBit(Masks(masks, packets)[sf], symbol) <==> HasBit(masks[sf], symbol) || Came(packets, sf, symbol)
  {
    if packets != [] {
      var last, front := packets[|packets| - 1], packets[..|packets| - 1];
      LastPacket(packets, sf, symbol);
      MaskIsSymbols(masks, front, sf, symbol);
      if last.Pulfft? && last.sf == sf {
        SetBitHas(Masks(masks, front)[sf], last.symbol, symbol);
      }
    }
  }

  lemma {:induction false} TickFillsMask(masks: seq<nat>, packets: seq<Packet>, sf: nat, symbol: nat)
    requires |masks| == 10 && ValidPackets(packets) && sf < 10 && Ticked(packets, sf) && symbol < 16
    ensures HasBit(Masks(masks, packets)[sf], symbol)
  {
    SixteenBits(symbol);
    if packets != [] {
      var last, front := packets[|packets| - 1], packets[..|packets| - 1];
      LastPacket(packets, sf, symbol);
      if !(last.PulTick? && last.sf == sf) {
        TickFillsMask(masks, front, sf, symbol);
        if last.Pulfft? && last.sf == sf {
          SetBitHas(Masks(masks, front)[sf], last.symbol, symbol);
        }
      }
    }
  }

  /** A symbol that the mask shows or that came. */
  ghost predicate Seen(mask: nat, packets: seq<Packet>, sf: nat, symbol: nat) {
    HasBit(mask, symbol) || Came(packets, sf, symbol)
  }

  /** For any masks and packets: the test of the wait loop is passed if and only if a
      tick came, or every expected symbol was seen, or one numbered beyond them. */
  lemma TestPassedIff(masks: seq<nat>, packets: seq<Packet>, sf: nat, expected: nat)
    requires |masks| == 10 && ValidPackets(packets) && sf < 10 && expected <= 16
    ensures Masks(masks, packets)[sf] >= Pow2(expected) - 1 <==>
            || Ticked(packets, sf)
            || (forall s: nat :: s < expected ==> Seen(masks[sf], packets, sf, s))
            || (exists s: nat :: s >= expected && Seen(masks[sf], packets, sf, s))
  {
    hide HasBit, Masks, Ticked, Came;
    var m := Masks(masks, packets)[sf];
    AtLeastFullIff(m, expected);
    if Ticked(packets, sf) {
      forall s: nat | s < expected ensures HasBit(m, s) {
        TickFillsMask(masks, packets, sf, s);
      }
    } else {
      forall s: nat ensures HasBit(m, s) <==> Seen(masks[sf], packets, sf, s) {
        MaskIsSymbols(masks, packets, sf, s);
      }
      assert AllBits(m, expected) <==> forall s: nat :: s < expected ==> Seen(masks[sf], packets, sf, s) by {
        assert forall s: nat :: s < expected ==> (HasBit(m, s) <==> Seen(masks[sf], packets, sf, s));
      }
      assert HighBit(m, expected) <==> exists s: nat :: s >= expected && Seen(masks[sf], packets, sf, s) by {
        assert forall s: nat :: s >= expected ==> (HasBit(m, s) <==> Seen(masks[sf], packets, sf, s));
      }
    }
  }

  /** The symbols of a subframe are numbered below the expected count. */
  predicate Numbered(packets: seq<Packet>, sf: nat, expected: nat) {
    forall i :: 0 <= i < |packets| && packets[i].Pulfft? && packets[i].sf == sf ==> packets[i].symbol < expected
  }

  /** A tick or every symbol of the subframe. */
  ghost predicate Arrived(packets: seq<Packet>, sf: nat, expected: nat) {
    Ticked(packets, sf) || forall s: nat :: s < expected ==> Came(packets, sf, s)
  }

  /** With such numbers, and a mask in which some of the symbols may be set already, the
      test is passed if and only if a tick came or every symbol is set or came. */
  lemma CompleteIff(masks: seq<nat>, packets: seq<Packet>, sf: nat, expected: nat)
    requires |masks| == 10 && ValidPackets(packets) && sf < 10 && expected <= 16
    requires masks[sf] < Pow2(expected) && Numbered(packets, sf, expected)
    ensures Masks(masks, packets)[sf] >= Pow2(expected) - 1 <==>
            Ticked(packets, sf) || forall s: nat :: s < expected ==> Seen(masks[sf], packets, sf, s)
  {
    hide HasBit, Masks, Ticked, Pow2;
    TestPassedIff(masks, packets, sf, expected);
    HighBitIff(masks[sf], expected);
    forall s: nat | s >= expected ensures !Seen(masks[sf], packets, sf, s) {
      assert !HasBit(masks[sf], s);
    }
  }

  const CLEAR: seq<nat> := [0, 0, 0, 0, 0, 0, 0, 0, 0, 0]

  /** The mask of a subframe when `packets` came since it was cleared. */
  function MaskSince(packets: seq<Packet>, sf: nat): nat
    requires ValidPackets(packets) && sf < 10
  {
    Masks(CLEAR, packets)[sf]
  }

  lemma ArrivedIff(packets: seq<Packet>, sf: nat, expected: nat)
    requires ValidPackets(packets) && sf < 10 && expected <= 16 && Numbered(packets, sf, expected)
    ensures MaskSince(packets, sf) >= Pow2(expected) - 1 <==> Arrived(packets, sf, expected)
  {
    hide HasBit, Masks;
    CompleteIff(CLEAR, packets, sf, expected);
    forall s: nat ensures Seen(CLEAR[sf], packets, sf, s) <==> Came(packets, sf, s) {
      ZeroHasNone(s);
    }
  }

  /** Packets taken in two calls are as good as taken in one. */
  lemma {:induction false} MasksAppend(masks: seq<nat>, a: seq<Packet>, b: seq<Packet>)
    requires |masks| == 10 && ValidPackets(a) && ValidPackets(b)
    ensures ValidPackets(a + b) && Masks(masks, a + b) == Masks(Masks(masks, a), b)
  {
    if b == [] {
      assert a + b == a;
    } else {
      assert (a + b)[..|a + b| - 1] == a + b[..|b| - 1];
      MasksAppend(masks, a, b[..|b| - 1]);
    }
  }

  /** The masks of other subframes do not matter. */
  lemma {:induction false} MasksApart(m: seq<nat>, m': seq<nat>, packets: seq<Packet>, sf: nat)
    requires |m| == |m'| == 10 && ValidPackets(packets) && sf < 10 && m[sf] == m'[sf]
    ensures Masks(m, packets)[sf] == Masks(m', packets)[sf]
  {
    if packets != [] {
      MasksApart(m, m', packets[..|packets| - 1], sf);
    }
  }

  lemma MaskGoesOn(masks: seq<nat>, since: seq<Packet>, packets: seq<Packet>, sf: nat)
    requires |masks| == 10 && ValidPackets(since) && ValidPackets(packets) && sf < 10
    requires masks[sf] == MaskSince(since, sf)
    ensures ValidPackets(since + packets) && Masks(masks, packets)[sf] == MaskSince(since + packets, sf)
  {
    MasksAppend(CLEAR, since, packets);
    MasksApart(masks, Masks(CLEAR, since), packets, sf);
  }

  /** Packets of other subframes do not matter. */
  lemma {:induction false} OthersDoNotMatter(masks: seq<nat>, packets: seq<Packet>, sf: nat)
    requires |masks| == 10 && ValidPackets(packets) && sf < 10
    requires forall i :: 0 <= i < |packets| ==> packets[i].sf != sf
    ensures Masks(masks, packets)[sf] == masks[sf]
  {
    if packets != [] {
      OthersDoNotMatter(masks, packets[..|packets| - 1], sf);
    }
  }

  lemma NextPacket(masks: seq<nat>, packets: seq<Packet>, n: nat)
    requires |masks| == 10 && ValidPackets(packets) && n < |packets|
    ensures Masks(masks, packets[..n + 1]) == Arrive(Masks(masks, packets[..n]), packets[n])
    ensures packets[n].Stopping? ==> Masks(masks, packets[..n + 1]) == Masks(masks, packets[..n])
  {
    assert packets[..n + 1][..n] == packets[..n];
  }

  /** What holds of the masks when more packets came. */
  lemma HistoryGoesOn(masks: seq<nat>, came: seq<seq<Packet>>, packets: seq<Packet>)
    requires |masks| == |came| == 10 && ValidPackets(packets)
    requires forall k: nat :: k < 10 ==> ValidPackets(came[k]) && masks[k] == MaskSince(came[k], k)
    ensures forall k: nat :: k < 10 ==>
      ValidPackets(came[k] + packets) && Masks(masks, packets)[k] == MaskSince(came[k] + packets, k)
  {
    hide Masks, MaskSince, ValidPackets;
    forall k: nat | k < 10
      ensures ValidPackets(came[k] + packets) && Masks(masks, packets)[k] == MaskSince(came[k] + packets, k)
    {
      MaskGoesOn(masks, came[k], packets, k);
    }
  }

  lemma PrefixesArrived(masks: seq<nat>, came: seq<Packet>, packets: seq<Packet>, sf: nat, expected: nat)
    requires |masks| == 10 && sf < 10
    requires ValidPackets(came) && ValidPackets(packets) && masks[sf] == MaskSince(came, sf)
    ensures expected <= 16 && Numbered(came + packets, sf, expected) ==>
      forall i :: 0 <= i <= |packets| ==>
        (Masks(masks, packets[..i])[sf] >= Pow2(expected) - 1 <==> Arrived(came + packets[..i], sf, expected))
  {
    hide Masks, MaskSince, Arrived, Pow2;
    if expected <= 16 && Numbered(came + packets, sf, expected) {
      forall i | 0 <= i <= |packets|
        ensures Masks(masks, packets[..i])[sf] >= Pow2(expected) - 1 <==> Arrived(came + packets[..i], sf, expected)
      {
        var all := came + packets[..i];
        assert forall j :: 0 <= j < |all| ==> all[j] == (came + packets)[j];
        MaskGoesOn(masks, came, packets[..i], sf);
        ArrivedIff(all, sf, expected);
      }
    }
  }

  /** The code never compares frame numbers.  A symbol that came in a packet of `frame`: */
  ghost predicate CameOf(packets: seq<Packet>, frame: nat, sf: nat, symbol: nat) {
    exists i :: 0 <= i < |packets| && packets[i] == Pulfft(frame, sf, symbol)
  }

  predicate NoRepeats(packets: seq<Packet>, sf: nat) {
    forall i, j :: 0 <= i < j < |packets| && packets[i].Pulfft? && packets[j].Pulfft? && packets[i].sf == packets[j].sf
      ==> packets[i].sf != sf || packets[i].symbol != packets[j].symbol
  }

  /** When every symbol came once, all are of `frame` (that of the last packet is the one
      reported) if and only if no symbol of another frame came in between. */
  lemma OneFrameIff(packets: seq<Packet>, frame: nat, sf: nat, expected: nat)
    requires Numbered(packets, sf, expected) && NoRepeats(packets, sf)
    requires forall s: nat :: s < expected ==> Came(packets, sf, s)
    ensures (forall s: nat :: s < expected ==> CameOf(packets, frame, sf, s)) <==>
            forall i :: 0 <= i < |packets| && packets[i].Pulfft? && packets[i].sf == sf ==> packets[i].frame == frame
  {
    if forall s: nat :: s < expected ==> CameOf(packets, frame, sf, s) {
      forall i | 0 <= i < |packets| && packets[i].Pulfft? && packets[i].sf == sf
        ensures packets[i].frame == frame
      {
        assert CameOf(packets, frame, sf, packets[i].symbol);
        var j :| 0 <= j < |packets| && packets[j] == Pulfft(frame, sf, packets[i].symbol);
      }
    } else {
      var s: nat :| s < expected && !CameOf(packets, frame, sf, s);
      assert Came(packets, sf, s);
      var i :| 0 <= i < |packets| && packets[i].Pulfft? && packets[i].sf == sf && packets[i].symbol == s;
    }
  }

  /** The first `k` symbols in packets of one frame, the others in packets of the next. */
  function TwoFrames(frame: nat, next: nat, sf: nat, k: nat, expected: nat): (packets: seq<Packet>)
    requires k <= expected
    ensures |packets| == expected
  {
    seq(expected, (i: nat) => Pulfft(if i < k then frame else next, sf, i))
  }

  /** When the symbols from the `k`-th on are lost those of the next frame complete the
      subframe with the last of them, so it is reported with the next frame's number
      though its first symbols are not of that frame. */
  lemma FramesMix(frame: nat, next: nat, sf: nat, k: nat, expected: nat)
    requires sf < 10 && k < expected && frame != next
    ensures var packets := TwoFrames(frame, next, sf, k, expected);
      && Arrived(packets, sf, expected)
      && (forall n: nat :: n < expected ==> !Arrived(packets[..n], sf, expected))
      && packets[expected - 1].frame == next
      && forall s: nat :: s < k ==> !CameOf(packets, next, sf, s)
  {
    var packets := TwoFrames(frame, next, sf, k, expected);
    forall s: nat | s < expected ensures Came(packets, sf, s) {
      assert packets[s].symbol == s && packets[s].sf == sf;
    }
    forall n: nat | n < expected ensures !Arrived(packets[..n], sf, expected) {
      assert !Came(packets[..n], sf, n);
    }
  }

  /** The wait ended with the subframe, was stopped, or goes on for want of packets. */
  datatype Outcome = Received | Stopped | Waiting

  // --------------------------------------------------------------- many calls

  /** Frame numbers have ten bits. */
  predicate ValidFrames(packets: seq<Packet>) {
    forall i :: 0 <= i < |packets| ==> packets[i].frame < 1024
  }

  /** `expected` are the symbols of each subframe of a frame. */
  predicate AllNumbered(packets: seq<Packet>, expected: seq<nat>) {
    |expected| == 10 && forall sf: nat :: sf < 10 ==> expected[sf] <= 16 && Numbered(packets, sf, expected[sf])
  }

  /** How many packets had been taken when the subframe number of the `i`-th call was
      last reported, given how many had been at the end of each call. */
  function LastEnd(ends: seq<nat>, i: nat): nat
    requires i < |ends| + 10
  {
    if i < 10 then 0 else ends[i - 10]
  }

  function PrevEnd(ends: seq<nat>, i: nat): nat
    requires i <= |ends|
  {
    if i == 0 then 0 else ends[i - 1]
  }

  /** The `i`-th call returned as soon as a tick or all symbols of its subframe had come
      since the last report of that number. */
  ghost predicate ReportRight(packets: seq<Packet>, expected: seq<nat>, ends: seq<nat>, i: nat)
    requires i < |ends| && |expected| == 10
  {
    var lo, prev, sf := LastEnd(ends, i), PrevEnd(ends, i), i % 10;
    && lo <= prev <= ends[i] <= |packets|
    && Arrived(packets[lo..ends[i]], sf, expected[sf])
    && forall n :: prev <= n < ends[i] ==> !Arrived(packets[lo..n], sf, expected[sf])
  }

  /** The frame counted in the `i`-th call when the first call set it to `frame`. */
  function Counter(frame: nat, i: nat): nat {
    (frame + i / 10) % 1024
  }

  lemma CounterNext(frame: nat, i: nat)
    ensures frame < 1024 ==> Counter(frame, 0) == frame
    ensures Counter(frame, i + 1) == if i % 10 == 9 then (Counter(frame, i) + 1) % 1024 else Counter(frame, i)
  {
    var q, r := i / 10, i % 10;
    assert i == 10 * q + r;
    assert (i + 1) / 10 == if r == 9 then q + 1 else q;
    assert (frame + q + 1) % 1024 == ((frame + q) % 1024 + 1) % 1024;
  }

  /** It reported the frame of the last packet, or if it took none the one counted. */
  predicate FrameRight(packets: seq<Packet>, ends: seq<nat>, frames: seq<nat>, i: nat)
    requires i < |ends| == |frames|
  {
    if PrevEnd(ends, i) < ends[i] <= |packets| then frames[i] == packets[ends[i] - 1].frame
    else frames[i] == if i == 0 then 0 else Counter(frames[0], i)
  }

  /** The packets that came since the last report of each subframe number. */
  ghost predicate SinceReports(packets: seq<Packet>, since: seq<seq<Packet>>, ends: seq<nat>, taken: nat) {
    && |since| == 10 && taken <= |packets|
    && forall i: nat :: |ends| <= i < |ends| + 10 ==>
         LastEnd(ends, i) <= taken && since[i % 10] == packets[LastEnd(ends, i)..taken]
  }

  lemma SinceMore(packets: seq<Packet>, came: seq<seq<Packet>>, since: seq<seq<Packet>>,
                  ends: seq<nat>, taken: nat, end: nat)
    requires SinceReports(packets, came, ends, taken) && |since| == 10
    requires taken <= end <= |packets|
    requires forall k: nat :: k < 10 ==>
      since[k] == if k == |ends| % 10 then [] else came[k] + packets[taken..end]
    ensures SinceReports(packets, since, ends + [end], end)
  {
    var more := ends + [end];
    forall i: nat | |more| <= i < |more| + 10
      ensures LastEnd(more, i) <= end && since[i % 10] == packets[LastEnd(more, i)..end]
    {
      if i < |ends| + 10 {
        assert i % 10 != |ends| % 10 && LastEnd(more, i) == LastEnd(ends, i);
        JoinWindows(packets, LastEnd(ends, i), taken, end);
      } else {
        assert i % 10 == |ends| % 10 && LastEnd(more, i) == end;
      }
    }
  }

  lemma JoinWindows(packets: seq<Packet>, lo: nat, taken: nat, end: nat)
    requires lo <= taken <= end <= |packets|
    ensures packets[lo..taken] + packets[taken..end] == packets[lo..end]
    ensures packets[taken..][..end - taken] == packets[taken..end]
  {
  }

  lemma RestOfRun(packets: seq<Packet>, expected: seq<nat>, lo: nat, taken: nat, sf: nat)
    requires ValidPackets(packets) && AllNumbered(packets, expected) && lo <= taken <= |packets| && sf < 10
    ensures ValidPackets(packets[taken..])
    ensures Numbered(packets[lo..taken] + packets[taken..], sf, expected[sf]) && expected[sf] <= 16
  {
    JoinWindows(packets, lo, taken, |packets|);
  }

  lemma ReportsMore(packets: seq<Packet>, expected: seq<nat>, ends: seq<nat>, end: nat)
    requires |expected| == 10
    requires LastEnd(ends, |ends|) <= PrevEnd(ends, |ends|) <= end <= |packets|
    requires var lo, sf := LastEnd(ends, |ends|), |ends| % 10;
      && Arrived(packets[lo..end], sf, expected[sf])
      && forall n :: PrevEnd(ends, |ends|) <= n < end ==> !Arrived(packets[lo..n], sf, expected[sf])
    requires forall i: nat :: i < |ends| ==> ReportRight(packets, expected, ends, i)
    ensures forall i: nat :: i < |ends + [end]| ==> ReportRight(packets, expected, ends + [end], i)
  {
    hide Arrived;
    var more := ends + [end];
    forall i: nat | i < |more| ensures ReportRight(packets, expected, more, i) {
      assert LastEnd(more, i) == LastEnd(ends, i) && PrevEnd(more, i) == PrevEnd(ends, i);
      if i < |ends| {
        assert ReportRight(packets, expected, ends, i);
      }
    }
  }

  lemma FrameNext(packets: seq<Packet>, ends: seq<nat>, frames: seq<nat>, end: nat, frame: nat)
    requires |ends| == |frames| && PrevEnd(ends, |ends|) <= end <= |packets|
    requires frame == if PrevEnd(ends, |ends|) < end then packets[end - 1].frame
                      else if |ends| == 0 then 0 else Counter(frames[0], |ends|)
    requires forall i: nat :: i < |ends| ==> FrameRight(packets, ends, frames, i)
    ensures forall i: nat :: i < |ends| + 1 ==> FrameRight(packets, ends + [end], frames + [frame], i)
  {
    forall i: nat | i < |ends| + 1 ensures FrameRight(packets, ends + [end], frames + [frame], i) {
      if i < |ends| {
        assert FrameRight(packets, ends, frames, i);
      }
    }
  }

  /** The counters of the radio thread's loop, stepped before every call. */
  function NextFrame(frame: nat, sf: nat): nat {
    if sf == 9 then (frame + 1) % 1024 else frame
  }

  /** A run after some calls that all returned with their subframe. */
  ghost predicate RunSoFar(packets: seq<Packet>, expected: seq<nat>, since: seq<seq<Packet>>, ends: seq<nat>,
                           sfs: seq<nat>, frames: seq<nat>, taken: nat, frame: nat, sf: nat) {
    && |expected| == 10 && |sfs| == |frames| == |ends|
    && taken == PrevEnd(ends, |ends|)
    && SinceReports(packets, since, ends, taken)
    && (forall i :: 0 <= i < |ends| ==> sfs[i] == i % 10)
    && (forall i: nat :: i < |ends| ==> ReportRight(packets, expected, ends, i))
    && (forall i: nat :: i < |ends| ==> FrameRight(packets, ends, frames, i))
    && sf == (|ends| + 9) % 10 && frame < 1024
    && frame == if ends == [] then 1023 else Counter(frames[0], |ends| - 1)
  }

  lemma RunBegins(packets: seq<Packet>, expected: seq<nat>, since: seq<seq<Packet>>)
    requires since == seq(10, _ => []) && AllNumbered(packets, expected)
    ensures RunSoFar(packets, expected, since, [], [], [], 0, 1023, 9)
  {
  }

  lemma RunMeans(packets: seq<Packet>, expected: seq<nat>, since: seq<seq<Packet>>, ends: seq<nat>,
                 sfs: seq<nat>, frames: seq<nat>, taken: nat, frame: nat, sf: nat)
    requires RunSoFar(packets, expected, since, ends, sfs, frames, taken, frame, sf)
    ensures |expected| == 10 && |sfs| == |frames| == |ends|
    ensures forall i :: 0 <= i < |ends| ==> sfs[i] == i % 10
    ensures forall i: nat :: i < |ends| ==> ReportRight(packets, expected, ends, i)
    ensures forall i: nat :: i < |ends| ==> FrameRight(packets, ends, frames, i)
  {
  }

  lemma CallBegins(packets: seq<Packet>, expected: seq<nat>, since: seq<seq<Packet>>, ends: seq<nat>,
                   sfs: seq<nat>, frames: seq<nat>, taken: nat, frame: nat, sf: nat)
    requires RunSoFar(packets, expected, since, ends, sfs, frames, taken, frame, sf)
    ensures var next := |ends| % 10;
      && next == (if sf == 9 then 0 else sf + 1) && |since| == |expected| == 10
      && LastEnd(ends, |ends|) <= taken <= |packets|
      && since[next] == packets[LastEnd(ends, |ends|)..taken]
    ensures |frames| == |ends| && NextFrame(frame, sf) < 1024
    ensures NextFrame(frame, sf) == if ends == [] then 0 else Counter(frames[0], |ends|)
  {
    hide Counter, ReportRight, FrameRight;
    if ends != [] {
      CounterNext(frames[0], |ends| - 1);
    }
  }

  lemma CallEnds(packets: seq<Packet>, expected: seq<nat>, came: seq<seq<Packet>>, since: seq<seq<Packet>>,
                 ends: seq<nat>, sfs: seq<nat>, frames: seq<nat>, taken: nat, frame: nat, sf: nat,
                 end: nat, frameRx: nat, frame': nat)
    requires RunSoFar(packets, expected, came, ends, sfs, frames, taken, frame, sf)
    requires |since| == |expected| == 10 && taken <= end <= |packets| && frameRx < 1024
    requires forall k: nat :: k < 10 ==>
      since[k] == if k == |ends| % 10 then [] else came[k] + packets[taken..end]
    requires var lo, next := LastEnd(ends, |ends|), |ends| % 10;
      && lo <= taken && Arrived(packets[lo..end], next, expected[next])
      && forall n :: taken <= n < end ==> !Arrived(packets[lo..n], next, expected[next])
    requires frameRx == if end == taken then NextFrame(frame, sf) else packets[end - 1].frame
    requires frame' == if ends == [] then frameRx else NextFrame(frame, sf)
    ensures RunSoFar(packets, expected, since, ends + [end], sfs + [|ends| % 10], frames + [frameRx],
                     end, frame', |ends| % 10)
  {
    hide Counter, Arrived, SinceReports, ReportRight, FrameRight;
    CallBegins(packets, expected, came, ends, sfs, frames, taken, frame, sf);
    CounterNext(frameRx, |ends|);
    SinceMore(packets, came, since, ends, taken, end);
    ReportsMore(packets, expected, ends, end);
    FrameNext(packets, ends, frames, end, frameRx);
  }

  class SouthPort {
    const samplesPerTti: nat
    const mask: array<nat>
    var ttiRx: nat
    var frameRx: nat
    var timestampRx: nat
    var firstRx: bool
    var waitResynch: bool
    /** For each subframe number the packets that came since its mask was cleared. */
    ghost var since: seq<seq<Packet>>

    ghost predicate Valid()
      reads this, mask
    {
      && mask.Length == 10 && |since| == 10
      && forall sf: nat :: sf < 10 ==> ValidPackets(since[sf]) && mask[sf] == MaskSince(since[sf], sf)
    }

    constructor (samplesPerTti: nat)
      ensures Valid() && fresh(mask) && since == seq(10, _ => []) && firstRx && !waitResynch
      ensures this.samplesPerTti == samplesPerTti
    {
      this.samplesPerTti := samplesPerTti;
      mask := new nat[10](_ => 0);
      since := seq(10, _ => []);
      ttiRx, frameRx, timestampRx := 0, 0, 0;
      firstRx, waitResynch := true, false;
    }

    /** The receive loop: packets are taken until the mask of subframe `sf` is full or
        the unit is stopped; `frame'` and `sf'` are those of the last packet. */
    method AwaitSubframe(frame: nat, sf: nat, expected: nat, packets: seq<Packet>)
        returns (outcome: Outcome, taken: nat, frame': nat, sf': nat)
      requires mask.Length == 10 && sf < 10 && ValidPackets(packets)
      modifies mask
      ensures taken <= |packets| && sf' < 10
      ensures mask[..] == Masks(old(mask[..]), packets[..taken])
      ensures forall i :: 0 <= i < taken ==> Masks(old(mask[..]), packets[..i])[sf] < Pow2(expected) - 1
      ensures forall i :: 0 <= i < taken ==> (packets[i].Stopping? <==> outcome == Stopped && i == taken - 1)
      ensures outcome == Received <==> mask[sf] >= Pow2(expected) - 1
      ensures outcome == Received ==> sf' == sf
      ensures outcome == Stopped ==> taken > 0
      ensures outcome == Waiting ==> taken == |packets|
      ensures taken == 0 ==> frame' == frame && sf' == sf
      ensures taken > 0 ==> frame' == packets[taken - 1].frame && sf' == packets[taken - 1].sf
    {
      ghost var was := mask[..];
      assert Masks(was, packets[..0]) == was;
      hide Pow2, SetBit, Masks;
      var full := Pow2(expected) - 1;
      taken, frame', sf', outcome := 0, frame, sf, Received;
      while mask[sf] < full
        invariant taken <= |packets| && sf' < 10
        invariant forall i :: 0 <= i < taken ==> Masks(was, packets[..i])[sf] < full
        invariant mask[..] == Masks(was, packets[..taken])
        invariant forall i :: 0 <= i < taken ==> !packets[i].Stopping?
        invariant taken == 0 ==> frame' == frame && sf' == sf
        invariant taken > 0 ==> frame' == packets[taken - 1].frame && sf' == packets[taken - 1].sf
        invariant mask[sf] >= full ==> sf' == sf
        decreases |packets| - taken
      {
        if taken == |packets| {
          outcome := Waiting;
          return;
        }
        var p := packets[taken];
        ghost var before := mask[..];
        NextPacket(was, packets, taken);
        frame', sf', taken := p.frame, p.sf, taken + 1;
        if p.Stopping? {
          outcome := Stopped;
          return;
        }
        match p {
          case Pulfft(_, _, symbol) => mask[sf'] := SetBit(mask[sf'], symbol);
          case PulTick(_, _) => mask[sf'] := TICK;
          case Prach(_, _) =>
        }
        assert mask[..] == Arrive(before, p);
      }
    }

    /** One call for the frame and subframe that the radio thread counts on, with
        `expected` symbols; `packets` is what the fronthaul delivers from now on.
        Unless it is stopped the call returns with that subframe, as soon as a tick or
        all its symbols came since its mask was cleared, and clears its mask only. */
    method SouthIn(frame: nat, sf: nat, expected: nat, packets: seq<Packet>)
        returns (outcome: Outcome, taken: nat, frame': nat, sf': nat)
      requires Valid() && sf < 10 && ValidPackets(packets)
      modifies this, mask
      ensures Valid() && taken <= |packets|
      ensures forall i :: 0 <= i < taken ==> Masks(old(mask[..]), packets[..i])[sf] < Pow2(expected) - 1
      ensures forall i :: 0 <= i < taken ==> (packets[i].Stopping? <==> outcome == Stopped && i == taken - 1)
      ensures outcome == Received <==> Masks(old(mask[..]), packets[..taken])[sf] >= Pow2(expected) - 1
      ensures expected <= 16 && Numbered(old(since)[sf] + packets, sf, expected) ==>
        && (outcome == Received <==> Arrived(old(since)[sf] + packets[..taken], sf, expected))
        && forall i :: 0 <= i < taken ==> !Arrived(old(since)[sf] + packets[..i], sf, expected)
      ensures outcome == Received ==> sf' == sf
      ensures outcome == Stopped ==> taken > 0 && sf' == packets[taken - 1].sf
      ensures outcome == Waiting ==>
        && taken == |packets|
        && mask[..] == Masks(old(mask[..]), packets[..taken])
        && unchanged(this`ttiRx, this`frameRx, this`timestampRx, this`firstRx, this`waitResynch)
        && frame' == frame && sf' == sf
      ensures outcome != Waiting ==>
        && sf' < 10 && ttiRx == sf'
        && mask[..] == Masks(old(mask[..]), packets[..taken])[sf' := 0]
        && frameRx == (if taken == 0 then frame else packets[taken - 1].frame)
        && timestampRx == (frameRx * 10 + ttiRx) * samplesPerTti
        && !firstRx
        && frame' == (if old(firstRx || waitResynch) then frameRx else frame)
        && (waitResynch <==> old(waitResynch) && (old(firstRx) || frameRx == frame))
      ensures forall k: nat :: k < 10 ==>
        since[k] == if outcome != Waiting && k == sf' then [] else old(since)[k] + packets[..taken]
    {
      ghost var was, came := mask[..], since;
      assert MaskSince([], sf) == 0 && forall k: nat :: k < 10 ==> MaskSince([], k) == 0;
      hide Pow2, Masks, MaskSince, Arrived, Numbered;
      var f, s;
      outcome, taken, f, s := AwaitSubframe(frame, sf, expected, packets);
      HistoryGoesOn(was, came, packets[..taken]);
      since := seq(10, k requires 0 <= k < 10 => came[k] + packets[..taken]);
      PrefixesArrived(was, came[sf], packets, sf, expected);
      frame', sf' := frame, sf;
      if outcome == Waiting {
        return;
      }
      frame', sf' := Report(frame, sf, f, s);
      mask[s] := 0;
      since := since[s := []];
    }

    /** Position and time of the subframe; `frame` and `sf` are the counters. */
    method Report(frame: nat, sf: nat, f: nat, s: nat) returns (frame': nat, sf': nat)
      modifies `ttiRx, `frameRx, `timestampRx, `firstRx, `waitResynch
      ensures ttiRx == sf' == s && frameRx == f && timestampRx == (f * 10 + s) * samplesPerTti && !firstRx
      ensures frame' == if old(firstRx || waitResynch) then f else frame
      ensures waitResynch <==> old(waitResynch) && (old(firstRx) || f == frame)
    {
      frame', sf' := frame, sf;
      ttiRx, frameRx := s, f;
      timestampRx := (frameRx * 10 + ttiRx) * samplesPerTti;
      if !firstRx {
        if ttiRx != sf {
          sf' := s;
        }
        if waitResynch && frameRx != frame {
          waitResynch := false;
          frame' := frameRx;
        }
      } else {
        firstRx := false;
        frame', sf' := frameRx, ttiRx;
      }
    }

    /** One call of a run in which `taken` packets have been taken before, those from
        `lo` on since the last report of subframe number `sf`. */
    method Turn(packets: seq<Packet>, expected: seq<nat>, ghost lo: nat, taken: nat, frame: nat, sf: nat)
        returns (outcome: Outcome, taken': nat, frame': nat)
      requires Valid() && sf < 10 && !waitResynch
      requires ValidPackets(packets) && ValidFrames(packets) && AllNumbered(packets, expected) && frame < 1024
      requires |since| == 10 && lo <= taken <= |packets| && since[sf] == packets[lo..taken]
      modifies this, mask
      ensures Valid() && !waitResynch && taken <= taken' <= |packets| && |expected| == 10
      ensures outcome == Received ==> Arrived(packets[lo..taken'], sf, expected[sf])
      ensures forall n :: taken <= n < taken' ==> !Arrived(packets[lo..n], sf, expected[sf])
      ensures outcome == Waiting ==> !Arrived(packets[lo..], sf, expected[sf])
      ensures outcome == Received ==>
        && ttiRx == sf && !firstRx && frameRx < 1024 && |since| == 10
        && frameRx == (if taken' == taken then frame else packets[taken' - 1].frame)
        && frame' == if old(firstRx) then frameRx else frame
      ensures outcome == Received ==> forall k: nat :: k < 10 ==>
        since[k] == if k == sf then [] else old(since)[k] + packets[taken..taken']
    {
      hide Masks, MaskSince, Arrived, Pow2, ValidPackets, Numbered;
      var n, sf';
      var rest := packets[taken..];
      RestOfRun(packets, expected, lo, taken, sf);
      outcome, n, frame', sf' := SouthIn(frame, sf, expected[sf], rest);
      taken' := taken + n;
      forall m | taken <= m <= taken'
        ensures packets[lo..taken] + rest[..m - taken] == packets[lo..m] && rest[..m - taken] == packets[taken..m]
      {
        JoinWindows(packets, lo, taken, m);
      }
      assert packets[lo..|packets|] == packets[lo..];
    }

    /** The radio thread's loop from the start: `calls` turns, or fewer if the unit is
        stopped or `packets` run out.  The `i`-th call reports subframe number i % 10 as
        soon as a tick or all its symbols came since its last report. */
    method Run(packets: seq<Packet>, expected: seq<nat>, calls: nat)
        returns (outcome: Outcome, ends: seq<nat>, sfs: seq<nat>, frames: seq<nat>)
      requires Valid() && since == seq(10, _ => []) && firstRx && !waitResynch
      requires ValidPackets(packets) && ValidFrames(packets) && AllNumbered(packets, expected)
      modifies this, mask
      ensures Valid() && |ends| == |sfs| == |frames| <= calls
      ensures outcome == Received <==> |ends| == calls
      ensures forall i :: 0 <= i < |ends| ==> sfs[i] == i % 10
      ensures forall i: nat :: i < |ends| ==> ReportRight(packets, expected, ends, i)
      ensures forall i: nat :: i < |ends| ==> FrameRight(packets, ends, frames, i)
      ensures outcome == Waiting ==>
        && LastEnd(ends, |ends|) <= |packets|
        && !Arrived(packets[LastEnd(ends, |ends|)..], |ends| % 10, expected[|ends| % 10])
    {
      RunBegins(packets, expected, since);
      hide RunSoFar, AllNumbered, ValidFrames, ValidPackets, Valid, Arrived, LastEnd, NextFrame;
      var frame, sf, taken := 1023, 9, 0;
      outcome, ends, sfs, frames := Received, [], [], [];
      for call := 0 to calls
        invariant Valid() && !waitResynch && (firstRx <==> call == 0)
        invariant outcome == Received && |ends| == call
        invariant RunSoFar(packets, expected, since, ends, sfs, frames, taken, frame, sf)
      {
        CallBegins(packets, expected, since, ends, sfs, frames, taken, frame, sf);
        ghost var came, before, frame0, sf0 := since, taken, frame, sf;
        frame, sf := NextFrame(frame, sf), if sf == 9 then 0 else sf + 1;
        outcome, taken, frame := Turn(packets, expected, LastEnd(ends, call), taken, frame, sf);
        if outcome != Received {
          RunMeans(packets, expected, came, ends, sfs, frames, before, frame0, sf0);
          return;
        }
        CallEnds(packets, expected, came, since, ends, sfs, frames, before, frame0, sf0, taken, frameRx, frame);
        ends, sfs, frames := ends + [taken], sfs + [ttiRx], frames + [frameRx];
      }
      RunMeans(packets, expected, since, ends, sfs, frames, taken, frame, sf);
    }
  }
}
