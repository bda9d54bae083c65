/** The ring of receive regions together with the radio unit's timing: which uplink
    slots tx_func gives up depends on slot lengths and on how far ahead transmission is. */
module GnbStart {
  import NrFrame
  import NrRuTiming
  import GnbRing

  /** Slots are numbered by the device's clock, and its timestamps lie `offset` into
      them: tx_func gives up exactly the slots whose transmission it finds too early. */
  ghost predicate DropsEarly(fp: NrFrame.FrameParms, p: GnbRing.Params, slAhead: nat, offset: nat)
    requires NrFrame.Valid(fp)
  {
    NrFrame.NrClockValid(fp);
    var c := NrFrame.NrClock(fp);
    && p.slots == |c.lens|
    && forall rx: nat :: rx in p.dropped <==>
         NrRuTiming.DroppedEarly(c, c.Start(rx + slAhead) + offset, c.SlotOf(rx + slAhead), slAhead)
  }

  /** The busy flags are right in every state of every run if and only if no uplink or
      mixed slot is forwarded whose transmission falls too early into a long slot. */
  lemma RingRightIff(fp: NrFrame.FrameParms, p: GnbRing.Params, slAhead: nat, offset: nat)
    requires NrFrame.Valid(fp) && DropsEarly(fp, p, slAhead, offset)
    ensures p.slots > 0
    ensures GnbRing.AlwaysBusyIffPending(p) <==>
            forall rx: nat :: rx in p.uplink && rx >= p.first ==> !NrRuTiming.TooEarly(fp, rx, slAhead, offset)
  {
    hide NrRuTiming.DroppedEarly, NrRuTiming.TooEarly, GnbRing.After;
    NrFrame.NrClockValid(fp);
    forall rx: nat
      ensures rx in p.dropped <==> NrRuTiming.TooEarly(fp, rx, slAhead, offset)
    {
      NrRuTiming.DroppedEarlyIff(fp, rx, slAhead, offset);
    }
    GnbRing.BusyIffPendingIff(p);
  }
}
