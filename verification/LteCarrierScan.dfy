/** The LTE UE's search for the carrier: as long as no cell is found, ever greater
    frequency offsets are tried, below and above the nominal frequency in turn. */
module LteCarrierScan {
  import opened Modular

  /** The step and limit in the code, in Hz. */
  const STEP: nat := 100
  const LIMIT: nat := 7500

  /** The offset of the `i`-th attempt, in steps: 0, -1, 1, -2, 2, ... */
  function Multiple(i: nat): int {
    if i % 2 == 1 then -((i + 1) / 2) else i / 2
  }

  function Offset(step: nat, i: nat): int {
    Multiple(i) * step
  }

  function Abs(x: int): nat {
    if x < 0 then -x else x
  }

  /** How many attempts stay within the limit. */
  function Attempts(step: nat, limit: nat): nat
    requires step > 0
  {
    2 * (limit / step) + 1
  }

  lemma WithinIff(m: int, step: nat, limit: nat)
    requires step > 0
    ensures Abs(m * step) == Abs(m) * step
    ensures Abs(m * step) <= limit <==> Abs(m) <= limit / step
  {
    var a, q := Abs(m), limit / step;
    assert Abs(m * step) == a * step;
    assert limit == q * step + limit % step;
    if a <= q {
      if a < q {
        MulStep(a, q, step);
      }
    } else {
      MulStep(q, a, step);
    }
  }

  lemma AttemptInRangeIff(step: nat, limit: nat, i: nat)
    requires step > 0
    ensures Abs(Offset(step, i)) <= limit <==> i < Attempts(step, limit)
  {
    WithinIff(Multiple(i), step, limit);
  }

  /** Every multiple of the step within the limit is the offset of exactly one attempt,
      and every attempt's offset is one. */
  lemma EveryMultipleOnce(step: nat, limit: nat, offset: int)
    requires step > 0
    ensures (exists m: int :: offset == m * step) && Abs(offset) <= limit
            <==> exists i: nat :: i < Attempts(step, limit) && Offset(step, i) == offset
    ensures forall i: nat, j: nat :: Offset(step, i) == Offset(step, j) ==> i == j
  {
    if m: int :| offset == m * step {
      var i: nat := if m < 0 then -2 * m - 1 else 2 * m;
      assert Multiple(i) == m;
      assert Offset(step, i) == offset;
      AttemptInRangeIff(step, limit, i);
    }
    if i: nat :| i < Attempts(step, limit) && Offset(step, i) == offset {
      AttemptInRangeIff(step, limit, i);
      assert offset == Multiple(i) * step;
    }
    forall i: nat, j: nat | Offset(step, i) == Offset(step, j) ensures i == j {
      SameMultiple(Multiple(i), Multiple(j), step);
    }
  }

  lemma SameMultiple(a: int, b: int, step: nat)
    requires step > 0 && a * step == b * step
    ensures a == b
  {
    if a < b {
      MulStep(a, b, step);
    } else if b < a {
      MulStep(b, a, step);
    }
  }

  /** After the first attempt the sign alternates, and the magnitude never falls. */
  lemma AlternatesAndGrows(step: nat, i: nat)
    requires step > 0
    ensures i > 0 ==> (Offset(step, i) < 0 <==> Offset(step, i + 1) > 0)
    ensures Abs(Offset(step, i)) <= Abs(Offset(step, i + 1)) <= Abs(Offset(step, i)) + step
  {
    var a, b := Multiple(i), Multiple(i + 1);
    WithinIff(a, step, 0);
    WithinIff(b, step, 0);
    assert Abs(b) == Abs(a) || Abs(b) == Abs(a) + 1;
    MulStep(Abs(a), Abs(a) + 1, step);
    SignOf(a, step);
    SignOf(b, step);
  }

  lemma SignOf(a: int, step: nat)
    requires step > 0
    ensures a * step < 0 <==> a < 0
    ensures a * step > 0 <==> a > 0
  {
    if a < 0 {
      MulStep(a, 0, step);
    } else if a > 0 {
      MulStep(0, a, step);
    }
  }

  /** The next offset, as computed from the last. */
  lemma NextOffset(step: nat, i: nat)
    requires step > 0
    ensures Offset(step, i + 1) == if Offset(step, i) >= 0 then -(Offset(step, i) + step) else -Offset(step, i)
  {
    var a, b := Multiple(i), Multiple(i + 1);
    SignOf(a, step);
    assert b == if a >= 0 then -(a + 1) else -a;
    assert -(a + 1) * step == -(a * step + step);
    assert -a * step == -(a * step);
  }

  /** The search over the device's channels, tuned to the downlink frequencies `dl` at
      first; `cells` are the offsets at which a cell would be found. */
  method Scan(dl: seq<int>, ulOffset: seq<int>, rxFreq: array<int>, txFreq: array<int>,
              step: nat, limit: nat, cells: set<int>)
      returns (tried: seq<int>, found: bool)
    requires step > 0 && rxFreq != txFreq
    requires |dl| == |ulOffset| == rxFreq.Length == txFreq.Length
    requires forall c :: 0 <= c < |dl| ==> rxFreq[c] == dl[c] && txFreq[c] == dl[c] + ulOffset[c]
    modifies rxFreq, txFreq
    ensures 0 < |tried| <= Attempts(step, limit)
    ensures forall i :: 0 <= i < |tried| ==> tried[i] == Offset(step, i)
    ensures forall i :: 0 <= i < |tried| ==> (tried[i] in cells <==> found && i == |tried| - 1)
    ensures found <==> exists i: nat :: i < Attempts(step, limit) && Offset(step, i) in cells
    ensures forall c :: 0 <= c < |dl| ==>
      && rxFreq[c] == dl[c] + tried[|tried| - 1]
      && txFreq[c] == dl[c] + ulOffset[c] + tried[|tried| - 1]
  {
    hide Offset, Multiple;
    var freqOffset: int := 0;
    assert Offset(step, 0) == 0 by { FirstOffset(step); }
    tried := [];
    while true
      invariant freqOffset == Offset(step, |tried|) && |tried| < Attempts(step, limit)
      invariant forall i :: 0 <= i < |tried| ==> tried[i] == Offset(step, i) && tried[i] !in cells
      invariant forall c :: 0 <= c < |dl| ==>
        rxFreq[c] == dl[c] + freqOffset && txFreq[c] == dl[c] + ulOffset[c] + freqOffset
      decreases Attempts(step, limit) - |tried|
    {
      tried := tried + [freqOffset];
      if freqOffset in cells {
        found := true;
        return;
      }
      NextOffset(step, |tried| - 1);
      AttemptInRangeIff(step, limit, |tried|);
      if freqOffset >= 0 {
        freqOffset := freqOffset + step;
      }
      freqOffset := -freqOffset;
      if Abs(freqOffset) > limit {
        found := false;
        return;
      }
      for c := 0 to |dl|
        invariant forall c' :: 0 <= c' < c ==>
          rxFreq[c'] == dl[c'] + freqOffset && txFreq[c'] == dl[c'] + ulOffset[c'] + freqOffset
      {
        rxFreq[c] := dl[c] + freqOffset;
        txFreq[c] := dl[c] + ulOffset[c] + freqOffset;
      }
    }
  }

  lemma FirstOffset(step: nat)
    ensures Offset(step, 0) == 0
  {
  }

  /** The search of the code. */
  lemma CodeScan(offset: int)
    ensures (exists i: nat :: i < 151 && Offset(STEP, i) == offset) <==> offset % 100 == 0 && -7500 <= offset <= 7500
  {
    EveryMultipleOnce(STEP, LIMIT, offset);
    if offset % 100 == 0 {
      assert offset == offset / 100 * STEP;
    }
  }
}
