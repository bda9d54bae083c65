/** Counting of the DLSCHs a transmit slot has to wait for.  One array, indexed by
    slot number, is incremented when a DLSCH is received and handed over, then
    cleared, when the task of a transmit slot is started; it is never told which
    frame a count belongs to. */
module NrUeDlschCount {
  import opened Modular
  import opened Wrappers

  /** Slot numbers per frame, distance from a received slot to the transmit slot
      started with it, and the first slot received in sync. */
  datatype Params = Params(slots: nat, rxToTx: nat, first: nat) {
    predicate Valid() {
      slots > 0
    }

    /** The transmit slot started with the `i`-th received slot. */
    function TxSlot(i: nat): nat {
      first + i + rxToTx
    }
  }

  /** The transmit slot that waits for a DLSCH received in slot `slot`: the first one
      not yet started whose number is the announced one. */
  function Target(p: Params, slot: nat, k1: nat): (t: nat)
    requires p.Valid()
    ensures slot + p.rxToTx <= t < slot + p.rxToTx + p.slots
  {
    slot + p.rxToTx + (k1 - p.rxToTx) % p.slots
  }

  lemma TargetResidue(p: Params, slot: nat, k1: nat)
    requires p.Valid()
    ensures Residue(p.slots, Target(p, slot, k1)) == Residue(p.slots, slot + k1)
  {
    var n, x := p.slots, k1 - p.rxToTx;
    assert x == x / n * n + x % n;
    var t := Target(p, slot, k1);
    assert slot + k1 == t + x / n * n;
    var q, r := t / n, t % n;
    assert slot + k1 == (q + x / n) * n + r by {
      assert t == q * n + r;
    }
    DivModUnique(slot + k1, n, q + x / n, r);
  }

  /** The waiting slot is the slot the feedback is due in exactly for delays from the
      distance of the transmit slot up to one frame more. */
  lemma TargetIsDueIff(p: Params, slot: nat, k1: nat)
    requires p.Valid()
    ensures Target(p, slot, k1) == slot + k1 <==> p.rxToTx <= k1 < p.slots + p.rxToTx
  {
    if p.rxToTx <= k1 < p.slots + p.rxToTx {
      DivModUnique(k1 - p.rxToTx, p.slots, 0, k1 - p.rxToTx);
    }
  }

  /** A run is the feedback delay announced in each received slot, if any. */
  function Waiting(p: Params, run: seq<Option<nat>>, m: nat): nat
    requires p.Valid()
  {
    if run == [] then 0
    else
      var i, k1 := |run| - 1, run[|run| - 1];
      Waiting(p, run[..i], m) + if k1.Some? && Target(p, p.first + i, k1.value) == m then 1 else 0
  }

  /** The number of DLSCHs of a run with feedback due in slot `m`. */
  function Due(p: Params, run: seq<Option<nat>>, m: nat): nat {
    if run == [] then 0
    else
      var i, k1 := |run| - 1, run[|run| - 1];
      Due(p, run[..i], m) + if k1.Some? && p.first + i + k1.value == m then 1 else 0
  }

  ghost predicate DelaysInRange(p: Params, run: seq<Option<nat>>) {
    forall i :: 0 <= i < |run| && run[i].Some? ==> p.rxToTx <= run[i].value < p.slots + p.rxToTx
  }

  lemma {:induction false} WaitingIsDue(p: Params, run: seq<Option<nat>>, m: nat)
    requires p.Valid() && DelaysInRange(p, run)
    ensures Waiting(p, run, m) == Due(p, run, m)
  {
    if run != [] {
      var i := |run| - 1;
      WaitingIsDue(p, run[..i], m);
      if run[i].Some? {
        TargetIsDueIff(p, p.first + i, run[i].value);
      }
    }
  }

  /** No DLSCH waits for a slot more than a frame ahead of the last one started. */
  lemma {:induction false} NoneAhead(p: Params, run: seq<Option<nat>>, m: nat)
    requires p.Valid() && m + 1 >= p.TxSlot(|run|) + p.slots
    ensures Waiting(p, run, m) == 0
  {
    if run != [] {
      NoneAhead(p, run[..|run| - 1], m);
    }
  }

  /** What is received after a transmit slot was started does not wait for it. */
  lemma {:induction false} Settled(p: Params, run: seq<Option<nat>>, more: seq<Option<nat>>, m: nat)
    requires p.Valid() && m < p.TxSlot(|run|)
    ensures Waiting(p, run + more, m) == Waiting(p, run, m)
  {
    if more == [] {
      assert run + more == run;
    } else {
      var all := run + more;
      assert all[..|all| - 1] == run + more[..|more| - 1];
      Settled(p, run, more[..|more| - 1], m);
    }
  }

  class DlschCounter {
    const p: Params
    const wait: array<nat>
    var slot: nat
    ghost var received: seq<Option<nat>>

    /** The array holds, for the next frame's worth of transmit slots, what waits
        for them. */
    ghost predicate Valid()
      reads this, wait
    {
      && p.Valid()
      && wait.Length == p.slots
      && slot == p.first + |received|
      && forall m: nat :: slot + p.rxToTx <= m < slot + p.rxToTx + p.slots
           ==> wait[Residue(p.slots, m)] == Waiting(p, received, m)
    }

    /** Synchronisation clears the array. */
    constructor (p: Params)
      requires p.Valid()
      ensures Valid() && fresh(wait) && this.p == p && received == []
    {
      this.p := p;
      wait := new nat[p.slots](_ => 0);
      slot := p.first;
      received := [];
    }

    /** One received slot: its DLSCH is counted, then the task of the transmit slot
        takes the count of its number away. */
    method ProcessSlot(k1: Option<nat>) returns (waitForDlsch: nat)
      requires Valid()
      modifies this, wait
      ensures Valid() && received == old(received) + [k1]
      ensures waitForDlsch == Waiting(p, received, p.TxSlot(|old(received)|))
    {
      hide Residue, Target;
      ghost var run := received + [k1];
      assert run[..|received|] == received;
      var m0 := slot + p.rxToTx;
      if k1.Some? {
        var r := Residue(p.slots, slot + k1.value);
        ghost var t := Target(p, slot, k1.value);
        TargetResidue(p, slot, k1.value);
        wait[r] := wait[r] + 1;
        forall m: nat | m0 <= m < m0 + p.slots
          ensures wait[Residue(p.slots, m)] == Waiting(p, run, m)
        {
          OwnResidue(p.slots, m, t);
        }
      }
      waitForDlsch := wait[Residue(p.slots, m0)];
      wait[Residue(p.slots, m0)] := 0;
      forall m: nat | m0 < m <= m0 + p.slots
        ensures wait[Residue(p.slots, m)] == Waiting(p, run, m)
      {
        OwnResidue(p.slots, m0, m);
        if m == m0 + p.slots {
          NoneAhead(p, run, m);
        }
      }
      slot := slot + 1;
      received := run;
    }

    /** Over a run with every delay in range, each transmit slot waits for exactly
        the DLSCHs whose feedback is due in it, whatever is received later. */
    method Run(run: seq<Option<nat>>) returns (waits: seq<nat>)
      requires Valid() && received == []
      modifies this, wait
      ensures Valid() && received == run && |waits| == |run|
      ensures forall i :: 0 <= i < |run| ==> waits[i] == Waiting(p, run, p.TxSlot(i))
      ensures DelaysInRange(p, run) ==> forall i :: 0 <= i < |run| ==> waits[i] == Due(p, run, p.TxSlot(i))
    {
      waits := [];
      while |waits| < |run|
        invariant Valid() && |waits| <= |run| && received == run[..|waits|]
        invariant forall i :: 0 <= i < |waits| ==> waits[i] == Waiting(p, run, p.TxSlot(i))
      {
        var n := |waits|;
        var w := ProcessSlot(run[n]);
        assert run[..n + 1] == run[..n] + [run[n]];
        assert run[..n + 1] + run[n + 1..] == run;
        Settled(p, run[..n + 1], run[n + 1..], p.TxSlot(n));
        waits := waits + [w];
      }
      assert run[..|waits|] == run;
      if DelaysInRange(p, run) {
        forall i | 0 <= i < |run| ensures waits[i] == Due(p, run, p.TxSlot(i)) {
          WaitingIsDue(p, run, p.TxSlot(i));
        }
      }
    }
  }
}
