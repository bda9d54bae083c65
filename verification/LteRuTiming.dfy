/** Timing of the LTE radio unit: received subframes stay on a grid of their own
    whatever the device's clock does, and transmit timestamps sent by the other end
    of the fronthaul are unwrapped. */
module LteRuTiming {
  import opened Modular

  /** Frame and subframe of the `k`-th subframe. */
  function FrameNo(k: nat): nat {
    k / 10 % 1024
  }

  function SubframeNo(k: nat): nat {
    k % 10
  }

  /** Dividing a timestamp on the grid. */
  lemma GridPosition(k: nat, spt: nat)
    requires spt > 0
    ensures k * spt >= 0 && spt * 10 > 0
    ensures k * spt / (spt * 10) % 1024 == FrameNo(k) && k * spt / spt % 10 == SubframeNo(k)
  {
    TenSubframes(k / 10, k % 10, spt);
    DivModUnique(k * spt, spt, k, 0);
  }

  lemma TenSubframes(q: nat, r: nat, spt: nat)
    requires spt > 0 && r < 10
    ensures (10 * q + r) * spt / (spt * 10) == q
  {
    MulStep(r, 10, spt);
    assert 0 <= r * spt;
    assert (10 * q + r) * spt == q * (spt * 10) + r * spt;
    DivModUnique((10 * q + r) * spt, spt * 10, q, r * spt);
  }

  lemma NextSubframe(k: nat)
    ensures SubframeNo(k) == 9 ==> SubframeNo(k + 1) == 0 && FrameNo(k + 1) == (FrameNo(k) + 1) % 1024
    ensures SubframeNo(k) != 9 ==> SubframeNo(k + 1) == SubframeNo(k) + 1 && FrameNo(k + 1) == FrameNo(k)
  {
  }

  class LteRu {
    const samplesPerTti: nat
    const sfAhead: nat
    /** One thread does reception and transmission, without an asynchronous fronthaul. */
    const singleThread: bool
    /** The radio thread's own counters. */
    var frame: nat
    var subframe: nat
    var firstRx: bool
    var tsOffset: int
    var timestampRx: int
    var frameRx: nat
    var ttiRx: nat
    var timestampTx: int
    var frameTx: nat
    var ttiTx: nat
    /** The number of subframes received. */
    ghost var received: nat

    ghost predicate Valid()
      reads this
    {
      && samplesPerTti > 0
      && (firstRx <==> received == 0)
      && (received == 0 ==> frame == 1023 && subframe == 9)
      && (received > 0 ==>
            && timestampRx == (received - 1) * samplesPerTti
            && frame == frameRx == FrameNo(received - 1)
            && subframe == ttiRx == SubframeNo(received - 1))
    }

    constructor (samplesPerTti: nat, sfAhead: nat, singleThread: bool, tsOffset: int)
      requires samplesPerTti > 0
      ensures Valid() && received == 0 && this.tsOffset == tsOffset
      ensures frame == 1023 && subframe == 9
      ensures this.samplesPerTti == samplesPerTti && this.sfAhead == sfAhead && this.singleThread == singleThread
    {
      this.samplesPerTti, this.sfAhead, this.singleThread := samplesPerTti, sfAhead, singleThread;
      this.tsOffset := tsOffset;
      frame, subframe, firstRx := 1023, 9, true;
      timestampRx, frameRx, ttiRx := 0, 0, 0;
      timestampTx, frameTx, ttiTx := 0, 0, 0;
      received := 0;
    }

    /** One turn of the radio thread's loop; the device stamps the samples with `ts`,
        which may be anything. */
    method ReceiveSubframe(ts: int)
      requires Valid()
      modifies this
      ensures Valid() && received == old(received) + 1
      ensures timestampRx == old(received) * samplesPerTti
      ensures frame == frameRx == FrameNo(old(received)) && subframe == ttiRx == SubframeNo(old(received))
      ensures tsOffset == if old(received) == 0 then ts - old(tsOffset) else ts - timestampRx
      ensures singleThread ==>
        && timestampTx == (old(received) + sfAhead) * samplesPerTti
        && ttiTx == SubframeNo(old(received) + sfAhead)
        && frameTx == TxFrame(FrameNo(old(received)), SubframeNo(old(received)), sfAhead)
        && (sfAhead <= 10 ==> frameTx == FrameNo(old(received) + sfAhead))
      ensures !singleThread ==> unchanged(this`timestampTx, this`ttiTx, this`frameTx)
    {
      ghost var k := received;
      if k > 0 {
        NextSubframe(k - 1);
      }
      if subframe == 9 {
        subframe, frame := 0, (frame + 1) % 1024;
      } else {
        subframe := subframe + 1;
      }
      RxRf(ts);
    }

    method RxRf(ts: int)
      requires samplesPerTti > 0 && (firstRx <==> received == 0)
      requires received > 0 ==> timestampRx == (received - 1) * samplesPerTti
      requires frame == FrameNo(received) && subframe == SubframeNo(received)
      modifies this
      ensures Valid() && received == old(received) + 1
      ensures tsOffset == if old(received) == 0 then ts - old(tsOffset) else ts - timestampRx
      ensures singleThread ==>
        && timestampTx == (old(received) + sfAhead) * samplesPerTti
        && ttiTx == SubframeNo(old(received) + sfAhead)
        && frameTx == TxFrame(FrameNo(old(received)), SubframeNo(old(received)), sfAhead)
        && (sfAhead <= 10 ==> frameTx == FrameNo(old(received) + sfAhead))
      ensures !singleThread ==> unchanged(this`timestampTx, this`ttiTx, this`frameTx)
    {
      hide FrameNo, SubframeNo;
      ghost var k := received;
      Distribute(k - 1, 1, samplesPerTti);
      GridPosition(k, samplesPerTti);
      var oldTs := timestampRx;
      timestampRx := ts - tsOffset;
      if firstRx {
        tsOffset := timestampRx;
        timestampRx := 0;
      } else if timestampRx - oldTs != samplesPerTti {
        tsOffset := tsOffset + (timestampRx - oldTs - samplesPerTti);
        timestampRx := ts - tsOffset;
      }
      assert timestampRx == k * samplesPerTti;
      frameRx := timestampRx / (samplesPerTti * 10) % 1024;
      ttiRx := timestampRx / samplesPerTti % 10;
      if singleThread {
        timestampTx := timestampRx + sfAhead * samplesPerTti;
        ttiTx := (ttiRx + sfAhead) % 10;
        frameTx := TxFrame(frameRx, ttiRx, sfAhead);
        TxSubframe(k, sfAhead);
        if sfAhead <= 10 {
          TxPosition(k, sfAhead);
        }
        Distribute(k, sfAhead, samplesPerTti);
      }
      if firstRx {
        firstRx := false;
        frame, subframe := frameRx, ttiRx;
      }
      received := k + 1;
    }

    /** After any run the k-th call has yielded k subframes, and the device's last
        timestamp is the offset away. */
    method Run(timestamps: seq<int>) returns (rx: seq<int>)
      requires Valid() && received == 0
      modifies this
      ensures Valid() && received == |timestamps| == |rx|
      ensures forall k :: 0 <= k < |rx| ==> rx[k] == k * samplesPerTti
      ensures |rx| > 1 ==> timestamps[|rx| - 1] == rx[|rx| - 1] + tsOffset
    {
      rx := [];
      while |rx| < |timestamps|
        invariant Valid() && received == |rx| <= |timestamps|
        invariant forall k :: 0 <= k < |rx| ==> rx[k] == k * samplesPerTti
        invariant |rx| > 1 ==> timestamps[|rx| - 1] == rx[|rx| - 1] + tsOffset
      {
        ReceiveSubframe(timestamps[|rx|]);
        rx := rx + [timestampRx];
      }
    }
  }

  /** The transmit frame and subframe as computed from the receive ones. */
  function TxFrame(frameRx: nat, ttiRx: nat, ahead: nat): nat {
    if ttiRx > 9 - ahead then (frameRx + 1) % 1024 else frameRx
  }

  lemma TxSubframe(k: nat, ahead: nat)
    ensures (SubframeNo(k) + ahead) % 10 == SubframeNo(k + ahead)
  {
  }

  lemma TxPosition(k: nat, ahead: nat)
    requires ahead <= 10
    ensures TxFrame(FrameNo(k), SubframeNo(k), ahead) == FrameNo(k + ahead)
    ensures (SubframeNo(k) + ahead) % 10 == SubframeNo(k + ahead)
  {
    var f, s := k / 10, k % 10;
    assert k == 10 * f + s;
    if s + ahead < 10 {
      assert (k + ahead) / 10 == f;
    } else if s + ahead < 20 {
      assert (k + ahead) / 10 == f + 1;
    }
  }

  /** The frame is right for every subframe if and only if the unit is at most ten
      subframes ahead, or ten more than whole hyperframes. */
  lemma TxFrameRightIff(ahead: nat)
    ensures (forall k: nat :: TxFrame(FrameNo(k), SubframeNo(k), ahead) == FrameNo(k + ahead))
            <==> ahead <= 10 || ahead % HYPER == 10
  {
    if ahead <= 10 {
      forall k: nat ensures TxFrame(FrameNo(k), SubframeNo(k), ahead) == FrameNo(k + ahead) {
        TxPosition(k, ahead);
      }
    } else if ahead % HYPER == 10 {
      forall k: nat ensures TxFrame(FrameNo(k), SubframeNo(k), ahead) == FrameNo(k + ahead) {
        TxPosition(k, 10);
        FrameRepeats(k + 10, ahead / HYPER);
      }
    } else {
      FarAhead(ahead);
    }
  }

  lemma FrameRepeats(k: nat, rounds: nat)
    ensures FrameNo(k + rounds * HYPER) == FrameNo(k)
  {
    assert (k + rounds * HYPER) / 10 == k / 10 + rounds * 1024;
  }

  lemma FarAhead(ahead: nat)
    requires ahead > 10 && ahead % HYPER != 10
    ensures exists k: nat :: TxFrame(FrameNo(k), SubframeNo(k), ahead) != FrameNo(k + ahead)
  {
    var r := ahead % HYPER;
    FrameRepeats(r, ahead / HYPER);
    FrameRepeats(9 + r, ahead / HYPER);
    var k: nat := if 10 <= r < 20 then 9 else 0;
    assert FrameNo(k) == 0 && TxFrame(0, SubframeNo(k), ahead) == 1;
    assert FrameNo(k + ahead) == FrameNo(k + r) != 1;
    assert TxFrame(FrameNo(k), SubframeNo(k), ahead) != FrameNo(k + ahead);
  }

  // ------------------------------------------------------ unwrapping frame numbers

  /** Subframes in 1024 frames. */
  const HYPER: nat := 10240

  /** The receiver of transmit subframes. */
  class AsynchPort {
    const samplesPerTti: nat
    var frameTxUnwrap: int
    var timestampTx: int

    constructor (samplesPerTti: nat)
      ensures this.samplesPerTti == samplesPerTti && frameTxUnwrap == 0
    {
      this.samplesPerTti := samplesPerTti;
      frameTxUnwrap, timestampTx := 0, 0;
    }

    method NorthIn(frame: nat, tti: nat)
      requires frame < 1024 && tti < 10
      modifies this
      ensures frameTxUnwrap == Unwrap(old(frameTxUnwrap), frame * 10 + tti)
      ensures timestampTx == Unwrapped(old(frameTxUnwrap), frame * 10 + tti) * samplesPerTti
    {
      if frame == 0 && tti == 0 {
        frameTxUnwrap := frameTxUnwrap + 1024;
      }
      timestampTx := ((frame + frameTxUnwrap) * 10 + tti) * samplesPerTti;
    }

    /** A whole stream of subframes, given by their true numbers: the timestamps are
        those of the unwrapped numbers, and tell the true time if the stream leaves out
        no frame 0, subframe 0. */
    method Run(stream: seq<nat>) returns (timestamps: seq<int>)
      requires frameTxUnwrap == 0
      modifies this
      ensures |timestamps| == |stream|
      ensures forall i :: 0 <= i < |stream| ==> timestamps[i] == NumberOf(stream, i) * samplesPerTti
      ensures InOrder(stream) && NoneSkipped(stream) ==>
        forall i :: 0 <= i < |stream| ==> timestamps[i] - timestamps[0] == (stream[i] - stream[0]) * samplesPerTti
    {
      timestamps := [];
      while |timestamps| < |stream|
        invariant |timestamps| <= |stream|
        invariant frameTxUnwrap == UnwrapAfter(stream[..|timestamps|])
        invariant forall i :: 0 <= i < |timestamps| ==> timestamps[i] == NumberOf(stream, i) * samplesPerTti
      {
        var i := |timestamps|;
        assert stream[..i + 1][..i] == stream[..i];
        var p := stream[i] % HYPER;
        NorthIn(p / 10, p % 10);
        timestamps := timestamps + [timestampTx];
      }
      if InOrder(stream) && NoneSkipped(stream) {
        forall i | 0 <= i < |stream|
          ensures timestamps[i] - timestamps[0] == (stream[i] - stream[0]) * samplesPerTti
        {
          Telescope(stream, i);
          Distribute(NumberOf(stream, i), -NumberOf(stream, 0), samplesPerTti);
        }
      }
    }
  }

  /** Frames added after a subframe at position `p` of its hyperframe. */
  function Unwrap(unwrap: int, p: nat): int {
    if p == 0 then unwrap + 1024 else unwrap
  }

  function Unwrapped(unwrap: int, p: nat): int {
    Unwrap(unwrap, p) * 10 + p
  }

  /** The unwrapped numbers of a stream of subframes, given by their true numbers, of
      which only the position in the hyperframe is sent. */
  function UnwrapAfter(stream: seq<nat>): int {
    if stream == [] then 0
    else Unwrap(UnwrapAfter(stream[..|stream| - 1]), stream[|stream| - 1] % HYPER)
  }

  function NumberOf(stream: seq<nat>, i: nat): int
    requires i < |stream|
  {
    Unwrapped(UnwrapAfter(stream[..i]), stream[i] % HYPER)
  }

  ghost predicate InOrder(stream: seq<nat>) {
    forall i, j :: 0 <= i < j < |stream| ==> stream[i] < stream[j]
  }

  /** A start of a hyperframe passed over between two subframes. */
  ghost predicate Skips(a: nat, b: nat) {
    exists m: nat :: a < m < b && m % HYPER == 0
  }

  ghost predicate NoneSkipped(stream: seq<nat>) {
    forall i, j :: 0 <= i && j == i + 1 && j < |stream| ==> !Skips(stream[i], stream[j])
  }

  /** One step keeps true time if and only if it skips no start of a hyperframe, and
      moves forward if and only if the position grows or is zero. */
  lemma StepIff(unwrap: int, a: nat, b: nat)
    requires a < b
    ensures var u, v := Unwrapped(unwrap, a % HYPER), Unwrapped(Unwrap(unwrap, a % HYPER), b % HYPER);
      && (v - u == b - a <==> !Skips(a, b))
      && (v > u <==> b % HYPER > a % HYPER || b % HYPER == 0)
  {
    var qa, ra, qb, rb := a / HYPER, a % HYPER, b / HYPER, b % HYPER;
    assert a == qa * HYPER + ra && b == qb * HYPER + rb;
    var m := (qa + 1) * HYPER;
    assert m % HYPER == 0 && a < m;
    if m < b {
      assert Skips(a, b);
    } else {
      forall x: nat | a < x < b ensures x % HYPER != 0 {
        assert x == x / HYPER * HYPER + x % HYPER;
      }
    }
  }

  /** Unwrapping tells the true time, up to the moment it started at, exactly for
      streams that leave out no frame 0, subframe 0. */
  lemma {:induction false} UnwrapExactIff(stream: seq<nat>)
    requires InOrder(stream) && stream != []
    ensures (forall i :: 0 <= i < |stream| ==> NumberOf(stream, i) - NumberOf(stream, 0) == stream[i] - stream[0])
            <==> NoneSkipped(stream)
  {
    forall i, j | 0 <= i && j == i + 1 && j < |stream|
      ensures NumberOf(stream, j) - NumberOf(stream, i) == stream[j] - stream[i] <==> !Skips(stream[i], stream[j])
    {
      StreamStep(stream, i);
    }
    if NoneSkipped(stream) {
      forall i | 0 <= i < |stream|
        ensures NumberOf(stream, i) - NumberOf(stream, 0) == stream[i] - stream[0]
      {
        Telescope(stream, i);
      }
    }
  }

  lemma StreamStep(stream: seq<nat>, i: nat)
    requires InOrder(stream) && i + 1 < |stream|
    ensures NumberOf(stream, i + 1) - NumberOf(stream, i) == stream[i + 1] - stream[i]
            <==> !Skips(stream[i], stream[i + 1])
  {
    assert stream[..i + 1][..i] == stream[..i];
    StepIff(UnwrapAfter(stream[..i]), stream[i], stream[i + 1]);
  }

  lemma {:induction false} Telescope(stream: seq<nat>, i: nat)
    requires InOrder(stream) && NoneSkipped(stream) && i < |stream|
    ensures NumberOf(stream, i) - NumberOf(stream, 0) == stream[i] - stream[0]
  {
    if i > 0 {
      Telescope(stream, i - 1);
      StreamStep(stream, i - 1);
    }
  }

  /** So for such a stream the numbers grow for ever and agree with the position
      within the hyperframe. */
  lemma UnwrapGrows(stream: seq<nat>, i: nat, j: nat)
    requires InOrder(stream) && NoneSkipped(stream) && i < j < |stream|
    ensures NumberOf(stream, i) < NumberOf(stream, j)
    ensures NumberOf(stream, j) % HYPER == stream[j] % HYPER
  {
    Telescope(stream, i);
    Telescope(stream, j);
    UnwrapWhole(stream[..j]);
    SameInHyper(Unwrap(UnwrapAfter(stream[..j]), stream[j] % HYPER), stream[j] % HYPER);
  }

  lemma SameInHyper(u: int, p: nat)
    requires u % 1024 == 0 && p < HYPER
    ensures (u * 10 + p) % HYPER == p
  {
    assert u * 10 == u / 1024 * HYPER;
  }

  lemma {:induction false} UnwrapWhole(stream: seq<nat>)
    ensures UnwrapAfter(stream) % 1024 == 0
  {
    if stream != [] {
      UnwrapWhole(stream[..|stream| - 1]);
    }
  }
}
