/** The burst flags handed to the radio with every transmitted slot of the NR UE. */
module NrUeBurst {
  import opened Modular

  datatype SlotType = Downlink | Uplink | Mixed

  datatype Flag = Invalid | Start | Middle | End | StartAndEnd

  /** `continuous` stands for FDD or the continuous transmission option; `sidelink`
      for sidelink mode 2, where `sidelinkTx` says whether the slot is sent. */
  datatype Mode = Mode(configured: bool, continuous: bool, sidelink: bool, sidelinkTx: bool) {
    predicate Tdd() {
      configured && !continuous && !sidelink
    }
  }

  function WriteFlag(mode: Mode, pattern: seq<SlotType>, slot: nat): Flag
    requires slot < |pattern|
  {
    if !mode.configured then Invalid
    else if mode.continuous then Middle
    else if mode.sidelink then (if mode.sidelinkTx then StartAndEnd else Invalid)
    else if pattern[slot].Downlink? then Invalid
    else if pattern[(slot + |pattern| - 1) % |pattern|].Downlink? then Start
    else if pattern[(slot + 1) % |pattern|].Downlink? then End
    else Middle
  }

  /** Slots counted without wrap. */
  predicate Down(pattern: seq<SlotType>, t: nat)
    requires |pattern| > 0
  {
    pattern[t % |pattern|].Downlink?
  }

  function FlagAt(mode: Mode, pattern: seq<SlotType>, t: nat): Flag
    requires |pattern| > 0
  {
    WriteFlag(mode, pattern, t % |pattern|)
  }

  /** What a flag does to the burst: a slot outside any burst leaves it closed, a
      start opens it, an end closes it.  None if the flag is out of place. */
  datatype Burst = Closed | Open | Broken

  function Follow(b: Burst, f: Flag): Burst {
    match (b, f)
    case (Closed, Invalid) => Closed
    case (Closed, Start) => Open
    case (Closed, StartAndEnd) => Closed
    case (Open, Middle) => Open
    case (Open, End) => Closed
    case _ => Broken
  }

  /** The burst after `n` slots from slot `first` on, none being open before. */
  function After(mode: Mode, pattern: seq<SlotType>, first: nat, n: nat): Burst
    requires |pattern| > 0
  {
    if n == 0 then Closed
    else Follow(After(mode, pattern, first, n - 1), FlagAt(mode, pattern, first + n - 1))
  }

  ghost predicate NeverBroken(mode: Mode, pattern: seq<SlotType>, first: nat)
    requires |pattern| > 0
  {
    forall n: nat :: After(mode, pattern, first, n) != Broken
  }

  /** A slot that is not downlink between two that are. */
  predicate Isolated(pattern: seq<SlotType>, i: nat)
    requires i < |pattern|
  {
    && !pattern[i].Downlink?
    && pattern[(i + |pattern| - 1) % |pattern|].Downlink?
    && pattern[(i + 1) % |pattern|].Downlink?
  }

  ghost predicate NoneIsolated(pattern: seq<SlotType>) {
    forall i: nat :: i < |pattern| ==> !Isolated(pattern, i)
  }

  /** Where each flag is found, in terms of the slots before and after. */
  lemma FlagMeaning(mode: Mode, pattern: seq<SlotType>, t: nat)
    requires |pattern| > 0 && t > 0 && mode.Tdd()
    ensures var f := FlagAt(mode, pattern, t);
      var before, now, next := Down(pattern, t - 1), Down(pattern, t), Down(pattern, t + 1);
      && (f == Invalid <==> now)
      && (f == Start <==> !now && before)
      && (f == End <==> !now && !before && next)
      && (f == Middle <==> !now && !before && !next)
      && (Isolated(pattern, t % |pattern|) <==> !now && before && next)
  {
    Neighbours(t, |pattern|);
  }

  lemma Neighbours(t: nat, n: nat)
    requires n > 0 && t > 0
    ensures (t % n + n - 1) % n == (t - 1) % n
    ensures (t % n + 1) % n == (t + 1) % n
  {
    Successor(t - 1, n);
    Successor(t, n);
    if (t - 1) % n == n - 1 {
      DivModUnique(n - 1, n, 0, n - 1);
    } else {
      DivModUnique(t % n + n - 1, n, 1, t % n - 1);
    }
    if t % n == n - 1 {
      DivModUnique(n, n, 1, 0);
    } else {
      DivModUnique(t % n + 1, n, 0, t % n + 1);
    }
  }

  /** Over every stretch of slots that are not downlink, of length at least two and
      between downlink slots, the flags spell start, middles, end; a single such
      slot gets a start alone. */
  lemma RunSpells(mode: Mode, pattern: seq<SlotType>, a: nat, b: nat, t: nat)
    requires |pattern| > 0 && mode.Tdd() && 1 < a <= b
    requires Down(pattern, a - 1) && Down(pattern, b + 1)
    requires forall i: nat :: a <= i <= b ==> !Down(pattern, i)
    requires a - 1 <= t <= b + 1
    ensures FlagAt(mode, pattern, t) ==
            if t < a || t > b then Invalid else if t == a then Start else if t == b then End else Middle
  {
    hide Down, FlagAt;
    FlagMeaning(mode, pattern, t);
    assert a <= t <= b ==> !Down(pattern, t);
    assert a < t <= b ==> !Down(pattern, t - 1);
    assert a <= t < b ==> !Down(pattern, t + 1);
  }

  lemma {:induction false} BurstIsRun(mode: Mode, pattern: seq<SlotType>, first: nat, n: nat)
    requires |pattern| > 0 && mode.Tdd() && first > 0 && NoneIsolated(pattern)
    requires Down(pattern, first) || Down(pattern, first - 1)
    ensures After(mode, pattern, first, n) ==
            if !Down(pattern, first + n - 1) && !Down(pattern, first + n) then Open else Closed
  {
    if n > 0 {
      BurstIsRun(mode, pattern, first, n - 1);
      hide Down, FlagAt, Isolated;
      var t := first + n - 1;
      FlagMeaning(mode, pattern, t);
      assert !Isolated(pattern, t % |pattern|);
    }
  }

  /** From slot `first` on, the flags of a TDD pattern open and close bursts properly
      for ever if and only if no uplink or mixed slot stands alone and the run does
      not begin inside a burst.  A pattern without downlink slots never does. */
  lemma NeverBrokenIff(mode: Mode, pattern: seq<SlotType>, first: nat)
    requires |pattern| > 0 && mode.Tdd() && first > 0
    ensures NeverBroken(mode, pattern, first)
            <==> NoneIsolated(pattern) && (Down(pattern, first) || Down(pattern, first - 1))
  {
    if !Down(pattern, first) && !Down(pattern, first - 1) {
      FlagMeaning(mode, pattern, first);
      assert After(mode, pattern, first, 0) == Closed;
      assert After(mode, pattern, first, 1) == Broken;
    } else if NoneIsolated(pattern) {
      forall n: nat ensures After(mode, pattern, first, n) != Broken {
        BurstIsRun(mode, pattern, first, n);
      }
    } else {
      var i: nat :| i < |pattern| && Isolated(pattern, i);
      IsolatedBreaks(mode, pattern, first, i);
    }
  }

  lemma IsolatedBreaks(mode: Mode, pattern: seq<SlotType>, first: nat, i: nat)
    requires |pattern| > 0 && mode.Tdd() && first > 0
    requires i < |pattern| && Isolated(pattern, i)
    ensures !NeverBroken(mode, pattern, first)
  {
    var d := |pattern|;
    var t := first * d + i;
    assert first * d >= first by { MulStep(0, d, first); }
    AddMultiple(i, first, d);
    DivModUnique(i, d, 0, i);
    var n := t - first;
    FlagMeaning(mode, pattern, t);
    FlagMeaning(mode, pattern, t + 1);
    assert After(mode, pattern, first, n + 1) == Follow(After(mode, pattern, first, n), Start);
    assert After(mode, pattern, first, n + 2) == Follow(After(mode, pattern, first, n + 1), Invalid);
    assert After(mode, pattern, first, n + 2) == Broken;
  }

  /** Outside TDD: before the configuration nothing is opened, continuous transmission
      never opens or closes anything, and in sidelink mode 2 every slot sent is a
      burst of its own. */
  lemma {:induction false} OtherModes(mode: Mode, pattern: seq<SlotType>, first: nat, n: nat)
    requires |pattern| > 0
    ensures mode.configured && mode.continuous ==> FlagAt(mode, pattern, first) == Middle
    ensures !mode.configured || (!mode.continuous && mode.sidelink) ==>
      && (FlagAt(mode, pattern, first) == StartAndEnd <==> mode.configured && mode.sidelinkTx)
      && After(mode, pattern, first, n) == Closed
  {
    if n > 0 {
      OtherModes(mode, pattern, first, n - 1);
    }
  }
}
