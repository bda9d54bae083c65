# Verified model of the RAN's real-time top level

The repository's real-time threads cut a radio sample stream into slots and pass the
slots along through queues, tokens and masks. This project models that level, of the
NR UE, the NR gNB and its radio unit, and of the LTE radio unit, L1 and UE, and proves
what the code relies on: over whole runs, for every device timestamp, every order of
packets and every interleaving of the threads.

`dafny verify dfyconfig.toml` checks everything. Code that works step by step on one
thread's state is a class or a method over arrays; code that several threads run at
once is a transition system with one step for each access that others can see, and the
theorems hold for every schedule, a sequence of steps each enabled when its turn comes.

## Modules

- `Modular`, `Bits`, `Wrappers`, `SlotClock`: remainders, bit masks, options, and time cut into slots of
  unequal length that repeat every frame.
- `NrFrame`: slot and symbol lengths, against section 5.3.1 of 3GPP TS 38.211.
- `NrUeStream`: receive and transmit blocks of the NR UE. Consecutive transmit blocks
  tile the time line whatever the drift corrections and timing advances.
- `NrUeTxOrder`: transmit tasks ordered by tokens in shared FIFOs.
- `NrUeDlschCount`: the array that counts the DLSCHs a transmit slot waits for.
- `NrUeBurst`: burst flags of the NR UE.
- `NrRuTiming`: timestamps of the NR radio unit, position of a transmission, length of
  a mixed slot, and the transmissions dropped at the start.
- `GnbRing`, `GnbStart`: the gNB's ring of receive regions and its pipeline.
- `LteRuFronthaul`, `LteRuTiming`, `LteRuBarrier`, `LteLateControl`: the LTE radio unit.
- `LteL1Mailbox`: the hand-off between the LTE L1 threads.
- `LteCarrierScan`: the LTE UE's carrier search.

## What the proofs found

- **Transmit order.** With N slots per frame, D slots from reception to transmission
  and feedback delays up to K, the code's comment calls the poll before transmission a
  check that should be useless. For every pattern with an uplink or mixed slot it is
  useless in every schedule exactly when no more than N + D - K tasks are unfinished at a
  time; beyond that a poll can take the token of the same slot one frame later, whose task
  is then left waiting. Transmissions keep their order exactly when no more than N tasks
  are unfinished at a time and no more than N + D - K + 1, the latter only if some slot is
  uplink or mixed; then the baton stays one as well. Fewer than N unfinished tasks do not
  suffice once K is D + 3: a token for a slot one frame later is then taken for the baton.
  Nothing in the code itself limits the number of unfinished tasks.
- The logs removed in `executables/nr-ue.c:533-537` leave `if (res)` in front of the
  calls that prepare the transmission, so by the first point those calls are reached only
  when the check fails. The model takes pulls, poll, push and write as they stand and the
  calls as unconditional.
- **Ring of receive regions.** The busy flags are right in every state exactly if
  `tx_func` never returns early for an uplink or mixed slot; if it does, the slot's region
  stays busy for good. Which transmissions are given up early is a simple inequality;
  up to 119 slots ahead only that of the device's slot 0 can be, with subcarrier spacing
  index 2 or more and the transmission in a long slot.
- **NR transmit position.** With slots of unequal length the frame and slot computed for
  a transmission belong to its timestamp exactly if the offset of the device's first
  timestamp in its slot is less than the length of the slot transmitted in; the radio
  unit runs on for ever exactly if that offset is less than the shortest slot.
- **L1 hand-off.** `wait_on_condition` (`openair1/PHY/defs_common.h:1175`) ends by
  locking its mutex once more, where the log left beside it names the unlock. Written
  so, no subframe is ever run; with the unlock, all the properties hold.
- **LTE reassembly.** When the unit is stopped during a wait, the call reports the
  subframe of the last packet and clears that one's mask. Frame numbers are never
  compared, so after a lost symbol the next frame's completes the subframe.
- **UE burst flags.** They open and close bursts properly for ever exactly if no uplink
  or mixed slot stands alone between downlink slots and the run does not begin inside a
  burst. A single such slot gets a start and no end.
- **LTE barrier.** A report leaves no trace exactly if its unit is ten subframes ahead,
  and a bound of ten is the widest under which the barrier is right in every schedule.

## Model

| member | source | states |
|---|---|---|
| SlotClock.SlotAndFrame | executables/nr-ue.c:955-962 | slot number and frame, defined by taking off whole frames, are remainder and quotient |
| SlotClock.ShiftByFrames | openair1/PHY/INIT/nr_parms.c:272-284 | whole frames can be taken out of a slot's number and its start time |
| SlotClock.WindowInFrame | openair1/PHY/INIT/nr_parms.c:272-284 | the length of the next d slots depends on the slot number only, frame wrap included |
| SlotClock.StartMonotone | openair1/PHY/INIT/nr_parms.c:272-284 | later slots start later, by a sample a slot at least |
| SlotClock.InSlotUnique | openair1/PHY/INIT/nr_parms.c:259-270 | a timestamp lies in one slot only |
| SlotClock.InSlotSplits | executables/nr-ru.c:2702-2703 | dividing by the frame and walking the slots of the rest name the absolute slot in progress |
| SlotClock.GetSamplesSlotTimestamp | openair1/PHY/INIT/nr_parms.c:272-284 | the loop yields the slot's start in the frame, or the time from its start to that of the slot slAhead later |
| SlotClock.GetSlotFromTimestamp | openair1/PHY/INIT/nr_parms.c:259-270 | the loop stops within the frame at the slot that contains the timestamp |
| NrFrame.SlotsPerSubframeIsPower | openair1/PHY/INIT/nr_parms.c:30 | the table of slots per subframe is 2^mu |
| NrFrame.SubframeIsOneMillisecond | openair1/PHY/INIT/nr_parms.c:318-321 | at the sampling rate of 15 kHz times 2^mu times the symbol size a subframe lasts one millisecond, and a frame has 10 * 2^mu slots |
| NrFrame.LongPrefixPlaces | executables/nr-ru.c:2828-2837 | the standard's symbols 0 and 7 * 2^mu are the places where the code's branches put the long prefix |
| NrFrame.MixedSlotLengthIsSymbolSum | executables/nr-ru.c:2828-2838 | the closed form is the sum over the symbols sent, long prefixes placed by section 5.3.1 of TS 38.211 |
| NrFrame.MixedSlotLengthLaws | executables/nr-ru.c:2828-2838 | one more symbol adds that symbol's length; one symbol agrees with the UE's first symbol, fourteen with the slot |
| NrFrame.LengthsRepeat | openair1/PHY/INIT/nr_parms.c:247-257 | the length functions repeat with the frame, for any slot number |
| NrFrame.FrameLengthIsTenSubframes | openair1/PHY/INIT/nr_parms.c:318-325 | the slots of a frame add up to the stored ten subframes, for all numerologies |
| NrUeStream.NrConfigValid | executables/nr-ue.c:777-783 | NR lengths meet what the stream needs: a slot is longer than its first symbol |
| NrUeStream.UeStream.Synchronise | executables/nr-ue.c:920-949 | after a resynchronisation the stream stands at the end of the first symbol of the next frame |
| NrUeStream.UeStream.ProcessSlot | executables/nr-ue.c:952-1023 | the transmit block starts where the last one ended, with the frame, slot and length of the slot rxToTx ahead, under any drift shift and timing advance; the read continues in the frame buffer where the last one ended |
| NrUeStream.UeStream.ReadSlot | executables/nr-ue.c:977-1012 | the block read, its place, shift and length; the extra first symbol at the end of a frame |
| NrUeStream.UeStream.PlanTransmission | executables/nr-ue.c:1014-1023 | start by the old timing advance, length by the change to the new one |
| NrUeStream.UeStream.Run | executables/nr-ue.c:846-1050 | any number of slots: the transmit blocks are those of the slots rxToTx ahead and tile from the first start on; the receive blocks take the device's samples in turn, each by the shift pending at its frame end; k frames consume k frame lengths less the shifts applied |
| NrUeStream.BufferFilled | executables/nr-ue.c:977-979 | in the frame buffer the blocks of a run follow one another to the end of the frame, less the shift |
| NrUeStream.TilesCoverOnce | executables/nr-ue.c:1014-1023 | blocks that tile contain every sample time of their stretch in exactly one block |
| Modular.ResiduesGoRound | executables/nr-ue.c:959-960 | slot numbers, which pick FIFO and slot type, are counted from 0 round and round |
| NrUeTxOrder.SchedulesKeepOrder | executables/nr-ue.c:492-593 | with at most N unfinished tasks, and at most N + D - K + 1 or no uplink slot, in every schedule a task reaches its transmit section only after all earlier ones have pushed the baton; the sections entered are those of all uplink and mixed slots so far, in order and once each |
| NrUeTxOrder.SchedulesKeepExact | executables/nr-ue.c:492-593 | with at most N + D - K, or at most N and no uplink slot, in every schedule each task's tokens are exactly in its FIFO, being decoded, or the baton to come, and no poll has found one |
| NrUeTxOrder.OneBaton | executables/nr-ue.c:587-593 | under the same bound there is exactly one baton, with the current task or at one place of its FIFO |
| NrUeTxOrder.PullsOwnToken | executables/nr-ue.c:510-513 | a task pulls only tokens meant for its slot |
| NrUeTxOrder.NoDeadlock | executables/nr-ue.c:492-513 | while the current task is unfinished a step other than a reception is enabled |
| NrUeTxOrder.PollSafeIff | executables/nr-ue.c:515-532 | for any window, no schedule makes the poll find a token if and only if the window is at most N + D - K or no slot is uplink or mixed |
| NrUeTxOrder.OrderIff | executables/nr-ue.c:492-513 | for any window, every schedule keeps the order if and only if the window is at most N, and at most N + D - K + 1 or no slot is uplink or mixed |
| NrUeTxOrder.NeverStuckIff | executables/nr-ue.c:492-532 | for any window, no schedule leaves an unfinished task with only receptions to come if and only if the window is at most N + D - K or no slot is uplink or mixed |
| NrUeTxOrder.SchedulesKeepRelay | executables/nr-ue.c:492-513 | without uplink slots, for any window, the baton is in one FIFO or with one task of the slot number whose turn it is, and as many tasks of each number are finished as in order |
| NrUeDlschCount.TargetResidue | executables/nr-ue.c:654-656 | the waiting slot has the announced slot number, and is the first such slot not yet started |
| NrUeDlschCount.TargetIsDueIff | executables/nr-ue.c:652-657 | it is the slot the feedback is due in if and only if D <= k1 < N + D |
| NrUeDlschCount.WaitingIsDue | executables/nr-ue.c:1045-1048 | with delays in range a slot waits for exactly the DLSCHs due in it |
| NrUeDlschCount.Settled | executables/nr-ue.c:1045-1048 | what is received after a slot was started does not change what it waits for |
| NrUeDlschCount.DlschCounter.ProcessSlot | executables/nr-ue.c:652-657 | the count taken from the array is that of the slot started, whatever frame the increments came from |
| NrUeDlschCount.DlschCounter.Run | executables/nr-ue.c:1031-1048 | over a run every transmit slot is given the number of DLSCHs due in it |
| NrUeBurst.FlagMeaning | executables/nr-ue.c:448-472 | which flag a slot gets, by the slots before and after it across the end of the frame |
| NrUeBurst.RunSpells | executables/nr-ue.c:461-471 | every run of slots that are not downlink spells start, middles, end, and downlink slots get none |
| NrUeBurst.NeverBrokenIff | executables/nr-ue.c:461-471 | bursts are properly opened and closed for ever if and only if no such slot stands alone and the run does not begin inside a burst |
| NrUeBurst.OtherModes | executables/nr-ue.c:450-459 | without configuration no burst is ever opened, in continuous transmission every slot continues one, in sidelink mode 2 each slot sent is a burst of its own |
| NrRuTiming.OffsetInSlot | executables/nr-ru.c:2702-2703 | a time some samples after a slot's start shows that slot if and only if the slot is longer |
| NrRuTiming.NrRu.constructor | executables/nr-ru.c:3155-3156 | the counters before the first slot |
| NrRuTiming.NrRu.Receive | executables/nr-ru.c:3289-3300 | timestamps advance by the slot just read, drift goes into the offset, and the program goes on exactly if position and counters agree |
| NrRuTiming.NrRu.RxRf | executables/nr-ru.c:2639-2740 | the same of the device read |
| NrRuTiming.NrRu.PlanTransmission | executables/nr-ru.c:3318-3322 | the transmit time is slAhead slots on; frame and slot are its position if and only if the reading's offset fits the slot |
| NrRuTiming.NrRu.Run | executables/nr-ru.c:3273-3424 | a run goes on exactly as long as no slot is shorter than the first reading's offset |
| NrRuTiming.NeverStopsIff | executables/nr-ru.c:2719-2735 | runs of every length go on, in the sense of NrRu.Run, if and only if the offset is less than the shortest slot |
| NrRuTiming.TransmitPosition | executables/nr-ru.c:2409-2410 | the exact condition for the transmit position, and the other formula in the code agrees, across the 1024-frame wrap |
| NrRuTiming.MixedSlotBurst | executables/nr-ru.c:2818-2838 | the loop and closed form give the time of the downlink symbols |
| NrRuTiming.DroppedEarlyIff | executables/nr-gnb.c:102-108 | which transmissions tx_func gives up, for every slot, distance and offset: those falling into a long slot before an exact time |
| NrRuTiming.OnlyFirstDropped | executables/nr-gnb.c:102-108 | up to 119 slots ahead only the one of the device's slot 0 |
| GnbRing.RegionsGoRound | executables/nr-ru.c:3341-3368 | the first slot of a frame uses the first region and the slots after it the next ones in turn |
| GnbRing.ReadWhereWritten | executables/nr-gnb.c:231 | the two low bits of the slot number, where rx_func reads, name the region the slot was converted to |
| GnbRing.EverySlotPasses | executables/nr-gnb.c:96-190 | tx_func takes all slots forwarded, in order and once each, and rx_func those not given up |
| GnbRing.InnerKeepsPending | executables/nr-gnb.c:96-190 | seen from the radio thread the queues and workers are one FIFO |
| GnbRing.SchedulesKeepInv | executables/nr-ru.c:3338-3369 | in every schedule the pending slots have a busy region each with their own samples in it, and completions pulled and pending are all uplink slots in order, once each |
| GnbRing.RingSafety | executables/nr-gnb.c:192-266 | a region is busy if and only if exactly one pending slot uses it; at most four completions wait; rx_func reads its own slot's samples |
| GnbRing.NeverOverwritten | executables/nr-ru.c:3367-3369 | feprx never converts into a region whose slot is still pending |
| GnbRing.WaitsIff | executables/nr-ru.c:3338-3363 | the radio thread waits if and only if a pending slot has the region it needs |
| GnbRing.NoWaitWithinDepth | executables/nr-ru.c:3338-3363 | it does not wait while all pending slots are of its frame and fewer than four back |
| GnbRing.AtMostDepth | openair1/PHY/defs_RU.h:200 | there are never more pending slots than regions |
| GnbRing.WaitIsBounded | executables/nr-ru.c:3347-3363 | between two slots the pipeline and the wait loop take a bounded number of steps |
| GnbRing.NoDeadlock | executables/nr-ru.c:3347-3363 | when the radio thread waits, a worker can move or a completion is there |
| GnbRing.DropLosesRegion | executables/nr-gnb.c:104-108 | an early return for an uplink slot leaves a busy region that no message will free |
| GnbRing.LostForEver | executables/nr-ru.c:3341-3363 | and no later uplink slot of that region is ever taken |
| GnbRing.BusyIffPendingIff | executables/nr-ru.c:3338-3369 | the busy flags are right in every reachable state if and only if no uplink slot is given up |
| GnbRing.AwaitRegion | executables/nr-ru.c:3341-3363 | the wait loop makes at most four pulls, stops at the first that frees the region wanted, and clears exactly the flags pulled |
| GnbStart.RingRightIff | executables/nr-gnb.c:102-108 | the flags are right for ever if and only if no uplink or mixed slot is forwarded whose transmission comes that early |
| Bits.AtLeastFullIff | executables/lte-ru.c:216-236 | a mask is at least 2^n - 1 if and only if all n bits are set or one beyond them |
| LteRuFronthaul.MaskIsSymbols | executables/lte-ru.c:223 | without a tick a mask shows the symbols that came, in any order among other subframes' packets |
| LteRuFronthaul.TickSets | executables/lte-ru.c:225 | a tick sets the sixteen low bits and no other |
| LteRuFronthaul.TestPassedIff | executables/lte-ru.c:216-236 | for any masks and packets, what the wait's test means |
| LteRuFronthaul.CompleteIff | executables/lte-ru.c:216-236 | from a mask in which symbols may be set already, the test is passed if and only if a tick came or every symbol is set or came |
| LteRuFronthaul.MasksAppend | executables/lte-ru.c:216-236 | packets taken in several calls count as if taken in one |
| LteRuFronthaul.OneFrameIff | executables/lte-ru.c:223 | the symbols of a subframe are all of one frame if and only if none of another came in between |
| LteRuFronthaul.FramesMix | executables/lte-ru.c:223 | for any number of symbols lost at the end, those of the next frame complete the subframe under its number |
| LteRuFronthaul.OthersDoNotMatter | executables/lte-ru.c:223-233 | packets of other subframes leave a mask alone |
| LteRuFronthaul.SouthPort.AwaitSubframe | executables/lte-ru.c:216-240 | the loop stops at the first packet that completes the subframe asked for, which is that packet's, or when stopped |
| LteRuFronthaul.SouthPort.SouthIn | executables/lte-ru.c:198-290 | a call that is not stopped reports the subframe asked for as soon as a tick or all its symbols came since it was last cleared, and clears only its mask; the early return and the resynchronisation too |
| LteRuFronthaul.SouthPort.Run | executables/lte-ru.c:1950-1962 | over many calls the subframes come in turn, each complete since its own last report and no later than that |
| LteRuTiming.LteRu.constructor | executables/lte-ru.c:1770-1771 | the counters before the first subframe |
| LteRuTiming.LteRu.ReceiveSubframe | executables/lte-ru.c:1950-1962 | the k-th call yields timestamp k * samplesPerTti and the counters' frame and subframe, for any device timestamp; the offset absorbs the rest |
| LteRuTiming.LteRu.RxRf | executables/lte-ru.c:646-722 | the same of the device read, with the transmit position |
| LteRuTiming.LteRu.Run | executables/lte-ru.c:1950-1962 | over any run of device timestamps |
| LteRuTiming.TxPosition | executables/lte-ru.c:678-680 | transmit frame and subframe are those of the subframe so far ahead |
| LteRuTiming.TxFrameRightIff | executables/lte-ru.c:680 | they are for every subframe if and only if at most ten ahead, or ten beyond whole hyperframes |
| LteRuTiming.AsynchPort.NorthIn | executables/lte-ru.c:482-487 | one subframe's unwrapped timestamp |
| LteRuTiming.AsynchPort.Run | executables/lte-ru.c:482-487 | a stream's timestamps are those of its unwrapped numbers, and its true times if it leaves out no frame 0, subframe 0 |
| LteRuTiming.StepIff | executables/lte-ru.c:485-487 | a step keeps true time if and only if it passes over no frame 0, subframe 0, and goes forward if and only if the position grows or is zero |
| LteRuTiming.UnwrapExactIff | executables/lte-ru.c:485-487 | a stream's unwrapped times are true if and only if it leaves out no frame 0, subframe 0 |
| LteRuTiming.UnwrapGrows | executables/lte-ru.c:485-487 | for such streams they grow for ever and agree with the position in the hyperframe |
| LteRuBarrier.ReportKeepsInv | executables/lte-ru.c:1229-1264 | a report fires if and only if it is the last of its subframe, which is then next in line, and leaves the mask zero |
| LteRuBarrier.FiresExactlyOnce | executables/lte-ru.c:1196-1314 | with no unit more than ten ahead the barrier fires once for every subframe reported by all, in order |
| LteRuBarrier.LostIff | executables/lte-ru.c:1235-1237 | a report is lost if and only if its unit is ten subframes ahead already |
| LteRuBarrier.AlwaysRightIff | executables/lte-ru.c:1235-1264 | with several units, every schedule with a given skew is right if and only if the skew is at most ten |
| LteRuBarrier.Barrier.WakeupL1s | executables/lte-ru.c:1222-1264 | the masks in place follow the model; L1 is woken if and only if all units reported |
| LteLateControl.NeverWrong | executables/lte-ru.c:791-853 | in every interleaving of transmit accesses and receive faults the writes follow the recovery's grammar |
| LteLateControl.OnlyEndsUntilStart | executables/lte-ru.c:791-821 | after an end without time the only writes before the next start are further such ends |
| LteLateControl.StartAfterTwoSkips | executables/lte-ru.c:794-815 | the start follows an end and exactly two skips |
| LteLateControl.TwoSkipsThenStart | executables/lte-ru.c:800-815 | without a new fault exactly two downlink or special subframes are skipped, then comes a start |
| LteLateControl.FaultEndsBurst | executables/lte-ru.c:654-657 | a fault raised before the transmit thread has read the value it acts on is answered by an end without time, whatever else happens |
| LteLateControl.ShortWriteEndsBurst | executables/lte-ru.c:850-853 | so is a short write of a burst not being ended |
| LteLateControl.FaultRecovers | executables/lte-ru.c:791-815 | with no further fault come the end, two skips and a start |
| LteLateControl.NoFaultVerbatim | executables/lte-ru.c:754-832 | without faults and short writes exactly the flags asked for are written |
| LteLateControl.Transmitter.TxRf | executables/lte-ru.c:754-853 | a whole turn of the transmit thread is one schedule of those steps |
| LteLateControl.Transmitter.RxShort | executables/lte-ru.c:654-657 | a short read raises the fault |
| LteL1Mailbox.RunsWhatWasAccepted | executables/lte-enb.c:330-393 | what was run is what was accepted, in order and once each, but for the slot in the place, and with its own fields |
| LteL1Mailbox.AcceptsWhatWasOffered | executables/lte-enb.c:638-671 | what is accepted is what the calls offered, in order, but for the slot a waiting call still holds |
| LteL1Mailbox.ExactlyOnce | executables/lte-enb.c:638-689 | every slot offered is run, in order and once, but for the one in the place and the one in hand |
| LteL1Mailbox.WorkIsBounded | executables/lte-enb.c:638-689 | between two calls and spurious wake-ups the two threads take a bounded number of steps |
| LteL1Mailbox.AllRunAtRest | executables/lte-enb.c:330-393 | when neither can go on every slot offered has been run |
| LteL1Mailbox.SpuriousWakeUps | executables/lte-enb.c:658-660 | a thread woken for nothing tests again and goes back to sleep |
| LteL1Mailbox.FieldsStable | executables/lte-enb.c:638-689 | no step changes the fields while the consumer has the place |
| LteL1Mailbox.NeverBothAsleep | executables/lte-enb.c:658-660 | producer and consumer never sleep at the same time |
| LteL1Mailbox.Progress | executables/lte-enb.c:638-689 | as long as a slot waits or is in the place a thread can go on without a spurious wake-up |
| LteL1Mailbox.SecondLockStops | openair1/PHY/defs_common.h:1159-1178 | with the second lock nothing is ever run and at most one slot accepted |
| LteL1Mailbox.SecondLockDeadlocks | openair1/PHY/defs_common.h:1175 | the slot accepted leaves the consumer waiting for its own mutex and the producer unable to go on |
| LteL1Mailbox.SomethingRunsIff | openair1/PHY/defs_common.h:1159-1178 | a slot can be run if and only if the wait ends by unlocking |
| LteCarrierScan.NextOffset | executables/lte-ue.c:653-656 | adding the step and negating walks through 0, -1, 1, -2, 2, ... steps |
| LteCarrierScan.EveryMultipleOnce | executables/lte-ue.c:649-675 | the offsets tried are the multiples within the limit, each once |
| LteCarrierScan.AlternatesAndGrows | executables/lte-ue.c:653-656 | the sign alternates and the magnitude never falls, nor jumps |
| LteCarrierScan.Scan | executables/lte-ue.c:649-693 | the search stops at the first offset with a cell, finds one exactly if there is one within the limit, and tunes every channel to the offset tried |
| LteCarrierScan.CodeScan | executables/lte-ue.c:653-658 | with the code's constants: the 151 multiples of 100 Hz up to 7500 Hz |

## Left out

- Radio devices, OFDM, channel processing, MAC and RRC: the device is a timestamp or a sample counter, decoding a DLSCH one step.
- `notifiedFIFO`, the thread pool, condition variables: taken as FIFOs, tasks in any order, and a monitor with spurious wake-ups.
- Integer widths: timestamps, counters and masks are unbounded; frame numbers wrap at 1024 as in the code.
- `nr-ru.c` lines 1-2023 are a commented copy; only the live part is modelled.
- NrUeTxOrder.SchedulesKeepOrder: on values, since tasks of several threads interleave; tokens left over from before a resynchronisation are purged (`nr-ue.c:942-948`) and unfinished tasks across one are not modelled.
- NrUeTxOrder.PollSafeIff: one DLSCH pushes one token (`openair1/SCHED_NR_UE/phy_procedures_nr_ue.c:636-643`), its feedback is due in an uplink or mixed slot, and counting it and starting the slot's task are one step.
- Contents of the UE's transmit buffer, cleared after each write (`nr-ue.c:476-479`).
- Sidelink mode 2 of the NR UE except in the burst flags; drift estimation that yields the shifts.
- GnbRing.RingSafety: on values, since four threads interleave; radio unit and L1 use the same slot types, as they copy one configuration; the queues are not freed during a run.
- GnbRing.AwaitRegion: the completions a wait will see are a sequence known beforehand.
- `OAI_FHI72`, emulated radio, `PHY_TX_THREAD`, `PRE_SCD_THREAD`, VNF timing, PRACH, and the start-up wait of 300 frames, which only chooses the first slot forwarded.
- The frame offset of NR radio units other than the first (`nr-ru.c:3334-3335`).
- For slot 0 the NR radio unit asks for the length of slot -1; for every numerology that is the length of the frame's last slot, which the model uses.
- `RU_FRAME_RESYNCH` of the LTE unit, and waiting or synchronising units at the barrier.
- LteRuFronthaul.SouthPort.SouthIn: packets to come are a sequence; when it runs out the call is left waiting.
- LteRuFronthaul.SouthPort.Run: begins with cleared masks and before the first reception; a run through a resynchronisation is covered call by call only.
- LteRuTiming.AsynchPort.NorthIn: begins when all symbols of the subframe are there.
- The flag that the LTE transmitter asks for in a subframe, and the burst's length and extension (`lte-ru.c:756-786`), are inputs.
- LteLateControl.NeverWrong: on values, since two threads interleave; one transmitter, though the variable is shared by all units (`lte-ru.c:548`); uplink subframes and the simulator's dummy writes do not touch the variable.
- LteL1Mailbox.RunsWhatWasAccepted: one producer; errors of the locking calls end the program and are not modelled.
- The transmit-fronthaul handshake, `eNB_top`'s copy-back and what `L1_thread` reads after releasing its place.
- What a successful carrier search does next, and the search over bands.
- NR symbol reassembly (`nr-ru.c:2370` fixes its full mask at 0), main programs, configuration, statistics and logging.
