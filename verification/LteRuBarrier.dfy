/** The barrier of the LTE radio units: each unit reports every subframe it has
    received, and the report that completes a subframe wakes the L1.  There are ten
    masks, one for each subframe number.  All units are running. */
module LteRuBarrier {
  import opened Bits

  /** `count[i]` is the number of subframes unit `i` has reported, so the absolute
      number of the one it reports next; `fired` lists the subframes for which the L1
      was woken. */
  datatype State = State(masks: seq<nat>, count: seq<nat>, fired: seq<nat>)

  function Init(units: nat): State {
    State(seq(10, _ => 0), seq(units, _ => 0), [])
  }

  predicate WellFormed(units: nat, s: State) {
    units > 0 && |s.masks| == 10 && |s.count| == units
  }

  function Report(units: nat, s: State, i: nat): (s': State)
    requires WellFormed(units, s) && i < units
    ensures WellFormed(units, s')
  {
    var k := s.count[i];
    var m := SetBit(s.masks[k % 10], i);
    var count := s.count[i := k + 1];
    if m == Pow2(units) - 1 then State(s.masks[k % 10 := 0], count, s.fired + [k])
    else State(s.masks[k % 10 := m], count, s.fired)
  }

  predicate Names(units: nat, schedule: seq<nat>) {
    forall i :: 0 <= i < |schedule| ==> schedule[i] < units
  }

  /** The state after the units reported in the order of `schedule`. */
  function After(units: nat, schedule: seq<nat>): (s: State)
    requires units > 0 && Names(units, schedule)
    ensures WellFormed(units, s)
  {
    if schedule == [] then Init(units)
    else Report(units, After(units, schedule[..|schedule| - 1]), schedule[|schedule| - 1])
  }

  /** Reporting once more leaves unit `i` at most `skew` subframes ahead of any other. */
  predicate MayReport(s: State, i: nat, skew: nat)
    requires i < |s.count|
  {
    forall j :: 0 <= j < |s.count| ==> s.count[i] < s.count[j] + skew
  }

  /** No unit ever gets more than `skew` subframes ahead of another. */
  ghost predicate WithinSkew(units: nat, skew: nat, schedule: seq<nat>)
    requires units > 0
  {
    && Names(units, schedule)
    && forall n :: 0 <= n < |schedule| ==> MayReport(After(units, schedule[..n]), schedule[n], skew)
  }

  /** The mask of a subframe shows the units that have reported it. */
  ghost predicate Shows(s: State, m: nat, k: nat) {
    forall j: nat :: HasBit(m, j) <==> j < |s.count| && s.count[j] > k
  }

  ghost predicate AllReported(s: State, k: nat) {
    forall j :: 0 <= j < |s.count| ==> s.count[j] > k
  }

  /** The subframes reported by all units were fired, once each and in order. */
  ghost predicate Right(s: State) {
    && s.fired == seq(|s.fired|, k => k)
    && forall k: nat :: k in s.fired <==> AllReported(s, k)
  }

  /** `|fired|` subframes have been reported by all units, and were fired in order;
      the masks show what was reported of the next ten. */
  ghost predicate Inv(units: nat, s: State)
    requires WellFormed(units, s)
  {
    var lo := |s.fired|;
    && (forall k :: 0 <= k < lo ==> s.fired[k] == k)
    && (forall j :: 0 <= j < units ==> lo <= s.count[j] <= lo + 10)
    && (exists j :: 0 <= j < units && s.count[j] == lo)
    && forall k: nat :: lo <= k < lo + 10 ==> Shows(s, s.masks[k % 10], k)
  }

  lemma InitInv(units: nat)
    requires units > 0
    ensures Inv(units, Init(units))
  {
    forall j: nat ensures !HasBit(0, j) {
      ZeroHasNone(j);
    }
    assert Init(units).count[0] == 0;
  }

  /** A mask that shows the reports of a subframe is full when all units reported it. */
  lemma FullMeansAll(units: nat, s: State, m: nat, k: nat)
    requires WellFormed(units, s) && Shows(s, m, k)
    ensures m == Pow2(units) - 1 <==> AllReported(s, k)
  {
    HighBitIff(m, units);
    FullIff(m, units);
    if AllBits(m, units) {
      forall j | 0 <= j < units ensures s.count[j] > k {
        assert HasBit(m, j);
      }
    }
  }

  /** The state of a report before any mask is cleared. */
  lemma MarkShows(units: nat, s: State, i: nat)
    requires WellFormed(units, s) && i < units && Inv(units, s) && s.count[i] < |s.fired| + 10
    ensures var k := s.count[i];
      && Shows(Report(units, s, i), SetBit(s.masks[k % 10], i), k)
      && forall k': nat :: |s.fired| <= k' < |s.fired| + 10 && k' != k
           ==> k' % 10 != k % 10 && Shows(Report(units, s, i), s.masks[k' % 10], k')
  {
    var k, s' := s.count[i], Report(units, s, i);
    forall j: nat
      ensures HasBit(SetBit(s.masks[k % 10], i), j) <==> j < units && s'.count[j] > k
    {
      SetBitHas(s.masks[k % 10], i, j);
      assert Shows(s, s.masks[k % 10], k);
    }
    forall k': nat | |s.fired| <= k' < |s.fired| + 10 && k' != k
      ensures k' % 10 != k % 10 && Shows(s', s.masks[k' % 10], k')
    {
      assert Shows(s, s.masks[k' % 10], k');
    }
  }

  /** A report fires if and only if it is the last one of its subframe, which is then
      the next in line. */
  lemma ReportKeepsInv(units: nat, s: State, i: nat)
    requires WellFormed(units, s) && i < units && Inv(units, s) && s.count[i] < |s.fired| + 10
    ensures var k, s' := s.count[i], Report(units, s, i);
      && Inv(units, s')
      && s'.fired == (if AllReported(s', k) then s.fired + [k] else s.fired)
      && (AllReported(s', k) ==> k == |s.fired| && s'.masks[k % 10] == 0)
  {
    var lo, k, s' := |s.fired|, s.count[i], Report(units, s, i);
    var m := SetBit(s.masks[k % 10], i);
    MarkShows(units, s, i);
    FullMeansAll(units, s', m, k);
    var j :| 0 <= j < units && s.count[j] == lo;
    hide Report, SetBit, HasBit, Pow2;
    ReportParts(units, s, i);
    if m == Pow2(units) - 1 {
      assert s'.count[j] > k;
      assert s'.count[i] == lo + 1;
      forall k': nat | lo + 1 <= k' < lo + 11 ensures Shows(s', s'.masks[k' % 10], k') {
        if k' == lo + 10 {
          forall j: nat ensures !HasBit(0, j) {
            ZeroHasNone(j);
          }
        }
      }
    } else {
      var j' :| 0 <= j' < units && s'.count[j'] <= k;
      if i == j {
        assert s'.count[j'] == lo;
      } else {
        assert s'.count[j] == lo;
      }
      forall k': nat | lo <= k' < lo + 10 ensures Shows(s', s'.masks[k' % 10], k') {
      }
    }
  }

  lemma ReportParts(units: nat, s: State, i: nat)
    requires WellFormed(units, s) && i < units
    ensures var k, s' := s.count[i], Report(units, s, i);
      var m := SetBit(s.masks[k % 10], i);
      && s'.count == s.count[i := k + 1]
      && (m == Pow2(units) - 1 ==> s'.masks == s.masks[k % 10 := 0] && s'.fired == s.fired + [k])
      && (m != Pow2(units) - 1 ==> s'.masks == s.masks[k % 10 := m] && s'.fired == s.fired)
  {
  }

  /** As long as no unit gets more than ten subframes ahead of another, the barrier
      fires once for every subframe that all units have reported, in order. */
  lemma {:induction false} FiresExactlyOnce(units: nat, schedule: seq<nat>)
    requires units > 0 && WithinSkew(units, 10, schedule)
    ensures Inv(units, After(units, schedule)) && Right(After(units, schedule))
  {
    var s := After(units, schedule);
    if schedule == [] {
      InitInv(units);
    } else {
      var n := |schedule| - 1;
      var front := schedule[..n];
      assert forall m :: 0 <= m < n ==> front[..m] == schedule[..m];
      FiresExactlyOnce(units, front);
      var t := After(units, front);
      var j :| 0 <= j < units && t.count[j] == |t.fired|;
      assert MayReport(t, schedule[n], 10);
      ReportKeepsInv(units, t, schedule[n]);
    }
    FiredIsReported(units, s);
  }

  lemma FiredIsReported(units: nat, s: State)
    requires WellFormed(units, s) && Inv(units, s)
    ensures Right(s)
  {
    forall k: nat ensures k in s.fired <==> AllReported(s, k) {
      if k < |s.fired| {
        assert s.fired[k] == k;
      } else {
        var j :| 0 <= j < units && s.count[j] == |s.fired|;
        assert !AllReported(s, k);
      }
    }
  }

  /** The bound is exact: with several units a report changes neither the masks nor
      what was fired if and only if its unit is ten subframes ahead already. */
  lemma LostIff(units: nat, s: State, i: nat)
    requires WellFormed(units, s) && Inv(units, s) && i < units && units > 1
    ensures Report(units, s, i).masks == s.masks && Report(units, s, i).fired == s.fired
            <==> s.count[i] == |s.fired| + 10
  {
    var lo, k := |s.fired|, s.count[i];
    var r := if k == lo + 10 then lo else k;
    var m := s.masks[k % 10];
    assert r % 10 == k % 10;
    assert Shows(s, m, r);
    if k == lo + 10 {
      assert HasBit(m, i);
      SetBitAgain(m, i);
      FullMeansAll(units, s, m, lo);
      var j :| 0 <= j < units && s.count[j] == lo;
      assert !AllReported(s, lo);
    } else {
      assert !HasBit(m, i);
      SetBitHas(m, i, i);
      assert SetBit(m, i) != m;
    }
  }

  lemma {:induction false} SetBitAgain(m: nat, i: nat)
    requires HasBit(m, i)
    ensures SetBit(m, i) == m
  {
    if i > 0 {
      SetBitAgain(m / 2, i - 1);
    }
  }

  // ------------------------------------------------------- the bound is exact

  ghost predicate AlwaysRight(units: nat, skew: nat)
    requires units > 0
  {
    forall schedule: seq<nat> :: WithinSkew(units, skew, schedule) ==> Right(After(units, schedule))
  }

  /** One more report in a schedule. */
  lemma WithinMore(units: nat, skew: nat, schedule: seq<nat>, i: nat)
    requires units > 0 && WithinSkew(units, skew, schedule) && i < units
    requires MayReport(After(units, schedule), i, skew)
    ensures WithinSkew(units, skew, schedule + [i]) && Names(units, schedule + [i])
    ensures After(units, schedule + [i]) == Report(units, After(units, schedule), i)
  {
    var more := schedule + [i];
    assert more[..|schedule|] == schedule;
    assert forall n :: 0 <= n < |schedule| ==> more[..n] == schedule[..n] && more[n] == schedule[n];
  }

  lemma WiderBound(units: nat, skew: nat, wider: nat, schedule: seq<nat>)
    requires units > 0 && WithinSkew(units, skew, schedule) && skew <= wider
    ensures WithinSkew(units, wider, schedule)
  {
    forall n | 0 <= n < |schedule| ensures MayReport(After(units, schedule[..n]), schedule[n], wider) {
      assert MayReport(After(units, schedule[..n]), schedule[n], skew);
    }
  }

  /** Two states, the second after one report more of unit 0 that left no trace; the
      units from 1 to `j` have reported `n` subframes and one more, the others `n`. */
  ghost predicate PairOfStates(units: nat, s: State, t: State, n: nat, j: nat)
    requires WellFormed(units, s) && WellFormed(units, t) && units > 1
  {
    && t.masks == s.masks && t.fired == s.fired
    && s.count[0] == 10 && t.count[0] == 11
    && forall i :: 1 <= i < units ==> s.count[i] == t.count[i] == if i <= j then n + 1 else n
  }

  ghost predicate Pair(units: nat, a: seq<nat>, b: seq<nat>, n: nat, j: nat)
    requires units > 1
  {
    && WithinSkew(units, 10, a) && WithinSkew(units, 11, b)
    && PairOfStates(units, After(units, a), After(units, b), n, j)
  }

  /** Unit 0 reports eleven times in a row. */
  lemma Ahead(units: nat) returns (a: seq<nat>, b: seq<nat>)
    requires units > 1
    ensures Pair(units, a, b, 0, 0)
  {
    a := TenReports(units, 10);
    FiresExactlyOnce(units, a);
    var s := After(units, a);
    NoneFired(units, s);
    LostIff(units, s, 0);
    WiderBound(units, 10, 11, a);
    WithinMore(units, 11, a, 0);
    ReportParts(units, s, 0);
    b := a + [0];
  }

  lemma NoneFired(units: nat, s: State)
    requires WellFormed(units, s) && Inv(units, s) && units > 1 && s.count[1] == 0
    ensures s.fired == []
  {
  }

  lemma {:induction false} TenReports(units: nat, n: nat) returns (a: seq<nat>)
    requires units > 1 && n <= 10
    ensures WithinSkew(units, 10, a)
    ensures After(units, a).count == seq(units, i => if i == 0 then n else 0)
  {
    if n == 0 {
      a := [];
    } else {
      a := TenReports(units, n - 1);
      assert Names(units, a);
      hide Report, WithinSkew, After, Names;
      WithinMore(units, 10, a, 0);
      ReportParts(units, After(units, a), 0);
      a := a + [0];
    }
  }

  /** The others catch up in turn. */
  lemma PairReports(units: nat, s: State, t: State, n: nat, j: nat)
    requires WellFormed(units, s) && WellFormed(units, t) && units > 1 && j + 1 < units && n <= 10
    requires PairOfStates(units, s, t, n, j)
    ensures j + 1 < |s.count| == |t.count| && MayReport(s, j + 1, 10) && MayReport(t, j + 1, 11)
    ensures PairOfStates(units, Report(units, s, j + 1), Report(units, t, j + 1), n, j + 1)
  {
    hide Report;
    ReportParts(units, s, j + 1);
    ReportParts(units, t, j + 1);
    SameMarks(units, s, t, j + 1);
  }

  lemma PairStep(units: nat, a: seq<nat>, b: seq<nat>, n: nat, j: nat)
    requires units > 1 && Pair(units, a, b, n, j) && j + 1 < units && n <= 10
    ensures Pair(units, a + [j + 1], b + [j + 1], n, j + 1)
  {
    hide *;
    PairParts(units, a, b, n, j);
    PairReports(units, After(units, a), After(units, b), n, j);
    WithinMore(units, 10, a, j + 1);
    WithinMore(units, 11, b, j + 1);
    PairWhole(units, a + [j + 1], b + [j + 1], n, j + 1);
  }

  lemma PairParts(units: nat, a: seq<nat>, b: seq<nat>, n: nat, j: nat)
    requires units > 1 && Pair(units, a, b, n, j)
    ensures Names(units, a) && WithinSkew(units, 10, a) && WellFormed(units, After(units, a))
    ensures Names(units, b) && WithinSkew(units, 11, b) && WellFormed(units, After(units, b))
    ensures PairOfStates(units, After(units, a), After(units, b), n, j)
  {
  }

  lemma PairWhole(units: nat, a: seq<nat>, b: seq<nat>, n: nat, j: nat)
    requires Names(units, a) && Names(units, b) && units > 1
    requires WithinSkew(units, 10, a) && WithinSkew(units, 11, b)
    requires PairOfStates(units, After(units, a), After(units, b), n, j)
    ensures Pair(units, a, b, n, j)
  {
  }

  lemma SameMarks(units: nat, s: State, t: State, i: nat)
    requires WellFormed(units, s) && WellFormed(units, t) && i < units
    requires s.masks == t.masks && s.fired == t.fired && s.count[i] == t.count[i]
    ensures Report(units, s, i).masks == Report(units, t, i).masks
    ensures Report(units, s, i).fired == Report(units, t, i).fired
  {
  }

  lemma {:induction false} CatchUp(units: nat, n: nat, j: nat) returns (a: seq<nat>, b: seq<nat>)
    requires units > 1 && j < units && n <= 10
    ensures Pair(units, a, b, n, j)
    decreases n, j
  {
    hide Pair;
    if n == 0 && j == 0 {
      a, b := Ahead(units);
    } else if j == 0 {
      a, b := CatchUp(units, n - 1, units - 1);
      PairRound(units, a, b, n - 1);
    } else {
      a, b := CatchUp(units, n, j - 1);
      PairStep(units, a, b, n, j - 1);
      a, b := a + [j], b + [j];
    }
  }

  lemma PairRound(units: nat, a: seq<nat>, b: seq<nat>, n: nat)
    requires units > 1 && Pair(units, a, b, n, units - 1)
    ensures Pair(units, a, b, n + 1, 0)
  {
  }

  /** A schedule with one unit eleven ahead after which a subframe that all units have
      reported was not fired. */
  lemma ElevenTooMany(units: nat) returns (b: seq<nat>)
    requires units > 1
    ensures WithinSkew(units, 11, b) && !Right(After(units, b))
  {
    var a;
    a, b := CatchUp(units, 10, units - 1);
    var s, t := After(units, a), After(units, b);
    FiresExactlyOnce(units, a);
    assert !AllReported(s, 10);
    assert AllReported(t, 10);
  }

  /** With several units the barrier is right under every schedule in which none gets
      more than `skew` subframes ahead if and only if that is at most ten. */
  lemma AlwaysRightIff(units: nat, skew: nat)
    requires units > 1
    ensures AlwaysRight(units, skew) <==> skew <= 10
  {
    if skew <= 10 {
      forall schedule: seq<nat> | WithinSkew(units, skew, schedule) ensures Right(After(units, schedule)) {
        WiderBound(units, skew, 10, schedule);
        FiresExactlyOnce(units, schedule);
      }
    } else {
      var b := ElevenTooMany(units);
      WiderBound(units, 11, skew, b);
    }
  }

  /** The masks as the units find them, under one mutex. */
  class Barrier {
    const units: nat
    const mask: array<nat>
    ghost var count: seq<nat>
    ghost var fired: seq<nat>

    ghost function Now(): State
      reads this, mask
    {
      State(mask[..], count, fired)
    }

    ghost predicate Valid()
      reads this, mask
    {
      WellFormed(units, Now())
    }

    constructor (units: nat)
      requires units > 0
      ensures Valid() && this.units == units && fresh(mask) && Now() == Init(units)
    {
      this.units := units;
      mask := new nat[10](_ => 0);
      count := seq(units, _ => 0);
      fired := [];
    }

    /** Unit `i` reports its subframe number `ttiRx`; the caller wakes the L1 when the
        subframe is complete. */
    method WakeupL1s(i: nat, ttiRx: nat) returns (wake: bool)
      requires Valid() && i < units && ttiRx == count[i] % 10
      modifies this, mask
      ensures Valid() && Now() == Report(units, old(Now()), i)
      ensures old(Inv(units, Now()) && MayReport(Now(), i, 10)) ==>
        && Inv(units, Now())
        && (wake <==> AllReported(Now(), old(count[i])))
        && (wake ==> mask[ttiRx] == 0)
    {
      ghost var was, k := Now(), count[i];
      mask[ttiRx] := SetBit(mask[ttiRx], i);
      count := count[i := k + 1];
      wake := mask[ttiRx] == Pow2(units) - 1;
      if wake {
        mask[ttiRx] := 0;
        fired := fired + [k];
      }
      if Inv(units, was) && MayReport(was, i, 10) {
        var j :| 0 <= j < units && was.count[j] == |was.fired|;
        ReportKeepsInv(units, was, i);
      }
    }
  }
}
