# Verified models of the MeshSat kit's protocol and decision code

This project models, in Dafny, the parts of the MeshSat kit whose promises span
whole runs: the satellite send protocol of the 9704 modem helper, the 10 m HF
codec, the UPS monitor's decisions, the BLE peer slots, and two serial framings.
Code that computes is a function here. Code that updates fields or buffers in
loops is a class or a method, proved against a specification function, and the
main results are theorems about those functions over every input, every run or
every interleaving. Where a model has names for thresholds, fields or codes, a
theorem states its behaviour once more with the numbers themselves. The
environment (modem lines, clock readings, samples, host commands, whether a client
comes up) is always a parameter without assumptions, except where a theorem states
one.

`dafny verify dfyconfig.toml` checks everything.

| files | what they model |
|---|---|
| `JsprSend`, `JsprSendProofs`, `JsprHelper` | one mobile-originated send: its state machine, its run invariant, and the polling loops that refine it |
| `JsprWire`, `JsprSendTheorems`, `JsprSendLimits` | what its lines and polls mean field by field, and its promises over every run |
| `JsprThreads`, `JsprLines` | the helper's two threads and its serial line reader |
| `CrcRegister`, `CrcTable`, `Crc16` | CRC-16/CCITT, table driven and bit by bit |
| `Gf2`, `Ldpc`, `Interleaver`, `Radix40`, `Hf10m` | the HF codec, from elimination over GF(2) to whole bursts |
| `FullLearner`, `ChargeWatch`, `ChargeRules`, `DischargeCurve`, `ShutdownDecider`, `UpsMonitor` | the UPS monitor |
| `PeerNames`, `BlePeers` | the BLE peer manager |
| `Kiss`, `FakeRadios` | KISS framing and the two simulated radios |
| `Dmr858m` | the DMR858M frame and its checksum |
| `Options`, `Bytes`, `Bits`, `UpsTypes` | shared types |

## What turned out false

Where a promise does not hold of the code as written, the model keeps the code
and a theorem gives the exact condition.

- `refused_at` alone does not say that nothing was supplied: the modem's final
  status is passed on with whatever it carries (`RefusedAtAfterSupply`,
  `RefusedAtCanFollowSupply`). `segment_supplied` does say it.
- A final status behind the modem's refusal of a cancel, in the same batch of
  lines, is lost (`SettleBatchReadIff`, `VerdictLostBehindRefusal`), as is
  anything behind the line that ends a send (`MainBatchRead`).
- The comment in `do_send_mo` says that a cancel written while its send queued
  still counts. It is void if another send starts first, or if it arrives while
  an older one of its name is being discarded (`ArrivalCancelsIff`,
  `QueuedCancelLost`, `CaughtCancelLost`).
- Sends start out of order when one is put while the drain is returning others
  (`FifoUnlessOvertaken`, `OvertakenRun`).
- A lower voltage does not always halt as early: below 2.50 V it is taken for a
  failed read (`LoweringKeepsHaltsIffPlausible`).
- The comment on `EnsurePeer` says that concurrent callers never duplicate or
  leak a client. That fails exactly when a slot is removed while its client is
  starting (`RemovalSafeIffNotStarting`, `FirstClientLeaks`, `OrphanForever`).
- A KISS frame cannot carry the delimiter as its command byte
  (`CarriedIffNoDelimiter`), so data of TNC port 12 is lost or garbled
  (`TncPairIsTransparent`, `PortTwelveGarbled`).
- A fragment total over 15 runs into the fragment index of an inner frame
  (`InnerReadsBack`).
- A DMR858M frame whose checksum happens to be zero is not protected
  (`DamageRejectedIff`, `FieldZeroIff`, `DamageCanPass`), and a changed length
  field can pass (`LengthDamageAcceptedIff`, `LengthDamageCanPass`).

## Model

| member | source | states |
|---|---|---|
| `JsprHelper.Send.constructor` | cmd/jspr-helper/jspr_helper.py:326-352 | the two hand-overs of waiting lines, the originate command and the two deadlines give the start state of the send |
| `JsprHelper.Send.TakeLine` | cmd/jspr-helper/jspr_helper.py:377-476 | one line in the main loop, with its early returns, is one step of the state machine and reports whether it ended the send |
| `JsprHelper.Send.TakeLines` | cmd/jspr-helper/jspr_helper.py:372-476 | a batch stops at the line that ends the send |
| `JsprHelper.Send.SettleOn` | cmd/jspr-helper/jspr_helper.py:280-302 | a batch in the settle loop: verdict, refused cancel, or still waiting |
| `JsprHelper.Send.CancelAndSettle` | cmd/jspr-helper/jspr_helper.py:271-304 | the settle loop over any tape of polls follows the state machine until it settles, gives up or the tape ends |
| `JsprHelper.Send.TimeOut` | cmd/jspr-helper/jspr_helper.py:478-485 | the end of the main loop: cancel what the modem holds, else report helper_timeout |
| `JsprHelper.Send.Pump` | cmd/jspr-helper/jspr_helper.py:354-485 | the whole polling loop, settle loops included, is exactly the run of the state machine over the same polls |
| `JsprHelper.DoSend` | cmd/jspr-helper/jspr_helper.py:306-485 | a whole send: its log and whether it has ended are those of the specified run, so every theorem below is about the loops |
| `JsprWire.LineTable` | cmd/jspr-helper/jspr_helper.py:377-476 | the effect of every line on a send, told by code, target and field values alone: which are ignored, what is written or emitted, field by field, and which end it |
| `JsprWire.SettleTable` | cmd/jspr-helper/jspr_helper.py:280-302 | the same for the settle loop |
| `JsprWire.PollTable` | cmd/jspr-helper/jspr_helper.py:354-370 | the head of the loop: 30 s, the budget, the host's cancel, and 20 s to settle |
| `JsprWire.SettlePollTable` | cmd/jspr-helper/jspr_helper.py:274-275 | the settle loop gives up at its deadline or when the helper stops, and not before |
| `JsprWire.Meanings` | cmd/jspr-helper/jspr_helper.py:395-455 | acceptance, prompt and final status are what their fields say, values compared by canonical form |
| `JsprWire.IntegerField` | cmd/jspr-helper/jspr_helper.py:398-425 | which values equal an integer field: the integer, the same float, and true or false for 1 and 0 |
| `JsprWire.Documents` | cmd/jspr-helper/jspr_helper.py:200-219 | every document the helper builds, field by field, its own fields over the modem's |
| `JsprWire.WaitingHandedOver` | cmd/jspr-helper/jspr_helper.py:326-330 | each line waiting before a send reaches the host in order, as unsolicited or response |
| `JsprWire.StaleDropped` | cmd/jspr-helper/jspr_helper.py:333-338 | of the lines read next only unsolicited ones that are no final status do |
| `JsprSendTheorems.ExactlyOneResult` | cmd/jspr-helper/jspr_helper.py:200-219 | on every run a send emits no result while it goes on and exactly one when it ends, as its last act and under its own reference |
| `JsprSendTheorems.SuppliedIffWritten` | cmd/jspr-helper/jspr_helper.py:306-485 | the result's segment_supplied is true if and only if this send wrote its payload to the modem; silence, refusal and rejection mean it wrote nothing |
| `JsprSendTheorems.PayloadBoundToIdentity` | cmd/jspr-helper/jspr_helper.py:395-441 | the payload is written at most once, with exactly the fields the host gave, to the message that an accepted reply carrying this reference and topic named earlier, right after a prompt carrying that message and topic for all of it from offset 0 |
| `JsprSendTheorems.WritesSpelledOut` | cmd/jspr-helper/jspr_helper.py:341-343 | every write of a whole send field by field, and exactly one originate |
| `JsprSendTheorems.EveryEndingAccounted` | cmd/jspr-helper/jspr_helper.py:280-300 | every ending is one of five, told by the fields of the line before and of the result; a modem verdict only by a final status carrying this message and topic |
| `JsprSendTheorems.OtherMessageIgnored` | cmd/jspr-helper/jspr_helper.py:422-454 | with message n in hand a status or prompt with another number or topic changes nothing |
| `JsprSendTheorems.OtherMessageSettlesNothing` | cmd/jspr-helper/jspr_helper.py:289-292 | nor does it settle a cancel |
| `JsprSendTheorems.NeverAbandoned` | cmd/jspr-helper/jspr_helper.py:259-304 | a send that had an identity ends with the modem's own verdict or after a cancel of that very message was written |
| `JsprSendTheorems.IdentityNeverChanges` | cmd/jspr-helper/jspr_helper.py:403-418 | over any continuation the log only grows, the identity stays once set, supplied stays supplied and a finished send does nothing more |
| `JsprSendTheorems.RefusedAtAfterSupply` | cmd/jspr-helper/jspr_helper.py:449-458 | after the payload was supplied the result carries refused_at exactly when the modem's own final status did |
| `JsprSendTheorems.RefusedAtCanFollowSupply` | cmd/jspr-helper/jspr_helper.py:205-219 | a run in which that happens |
| `JsprSendTheorems.AcceptedSendCompletes` | cmd/jspr-helper/jspr_helper.py:395-458 | however lines fall into batches and whatever comes between: when acceptance, prompt and final status come in this order, no other line identifies or ends the send first and no poll stops it, the payload is supplied and the send ends with that status |
| `JsprSendTheorems.EndsInTime` | cmd/jspr-helper/jspr_helper.py:349-370 | a send without an identity is over after the smaller of 30 s and its timeout, any send after its timeout plus two settle windows, up to the length of a loop pass |
| `JsprSendLimits.NoEarlyEnd` | cmd/jspr-helper/jspr_helper.py:349-362 | while the helper runs and no poll is past the budget only a line ends a send, or 30 s without an identity, and not even those before a poll is past them |
| `JsprSendLimits.NoUnaskedCancel` | cmd/jspr-helper/jspr_helper.py:364-368 | without a late poll, a stop or a host's cancel no cancel is written; a send without an op takes none |
| `JsprSendLimits.SettleWaits` | cmd/jspr-helper/jspr_helper.py:274-304 | after a cancel the send waits for its message's final status or a refusal for 20 s |
| `JsprSendTheorems.ForeignLinesPassedOn` | cmd/jspr-helper/jspr_helper.py:383-386 | over a whole send each unsolicited line of another subsystem that a loop takes up reaches the host once and in order |
| `JsprSendTheorems.MainBatchRead` | cmd/jspr-helper/jspr_helper.py:377-476 | a batch is taken up in order to its end, or to the line that ends the send and no further |
| `JsprSendTheorems.SettleBatchReadIff` | cmd/jspr-helper/jspr_helper.py:280-302 | the settle loop takes up a whole batch if and only if no line but its last is this message's final status or a refused cancel |
| `JsprSendTheorems.VerdictLostBehindRefusal` | cmd/jspr-helper/jspr_helper.py:297-299 | for every cancellable send, a whole run in which the final status stands behind a refused cancel and the send, its payload supplied, ends as helper_timeout |
| `JsprThreads.CancelledOnlyByItsOwnToken` | cmd/jspr-helper/jspr_helper.py:242-251 | in every interleaving a send is cancelled only by a token with its own non-empty op, arrived after the previous send had started |
| `JsprThreads.OthersAreVoidedAtStart` | cmd/jspr-helper/jspr_helper.py:226-235 | while a send runs, any other token in the set arrived after that send's start |
| `JsprThreads.OneCancelPerArrival` | cmd/jspr-helper/jspr_helper.py:247-251 | cancellations by an op, plus one if its token is still there, never exceed its arrivals |
| `JsprThreads.WaitsIffLeftAlone` | cmd/jspr-helper/jspr_helper.py:230-251 | one step of either thread, exactly: without a new arrival a token waits for its send afterwards if and only if it did before and the step leaves it alone |
| `JsprThreads.TokenSurvives` | cmd/jspr-helper/jspr_helper.py:236-240 | a waiting token outlives everything, the end of the preceding send included, until its own send looks for it or another send starts |
| `JsprThreads.TokenLost` | cmd/jspr-helper/jspr_helper.py:230-235 | a token that arrived during the discard of its name, or that a step did not leave alone, is gone: in no later state that discards nothing is it in the set, and its send is not cancelled |
| `JsprThreads.ArrivalCancelsIff` | cmd/jspr-helper/jspr_helper.py:226-251 | in every interleaving, when a send of its op looks for it, an arrival is there and cancels if and only if its name was not just being discarded when it came, and since then no other send has started and none of that op has looked or ended |
| `JsprThreads.QueuedCancelLost` | cmd/jspr-helper/jspr_helper.py:226-235 | for any two sends of different ops: the second's cancel, written while it queued behind the first, is void when it runs |
| `JsprThreads.CaughtCancelLost` | cmd/jspr-helper/jspr_helper.py:232-234 | for any two sends of different ops: a cancel that arrives while an older one of its name is being discarded goes with it |
| `JsprThreads.NoSendLostOrDoubled` | cmd/jspr-helper/jspr_helper.py:487-509 | in every interleaving the sends put are, as a multiset, those started, queued or held by the drain |
| `JsprThreads.FifoUnlessOvertaken` | cmd/jspr-helper/jspr_helper.py:506-507 | for a host that never repeats a send: in every continuation without further puts the sends started are a prefix of those put, if and only if none was put while the drain was returning others |
| `JsprThreads.OvertakenRun` | cmd/jspr-helper/jspr_helper.py:506-507 | for any three sends, a run in which they are put as a, b, c and start as a, c, b |
| `JsprThreads.StartsThemAll` | cmd/jspr-helper/jspr_helper.py:579-598 | from every reachable state the loop can go on by itself until every send put has started |
| `JsprThreads.Helper.DropOtherCancels` | cmd/jspr-helper/jspr_helper.py:230-235 | undisturbed, the start of a send leaves only its own token |
| `JsprThreads.Helper.TakeCancel` | cmd/jspr-helper/jspr_helper.py:242-251 | true exactly for a non-empty op in the set, which it removes |
| `JsprThreads.Helper.DrainStaleCommands` | cmd/jspr-helper/jspr_helper.py:493-507 | undisturbed, the drained queue is the order-preserving filter of the old one |
| `JsprLines.Reader.SerialReadLines` | cmd/jspr-helper/jspr_helper.py:156-173 | one bulk read delivers the parsed complete lines of buffer and data and keeps the partial one |
| `JsprLines.CutConcat` | cmd/jspr-helper/jspr_helper.py:166-167 | cutting a longer buffer is cutting its front, then what is left with the rest |
| `JsprLines.ChunkingDoesNotMatter` | cmd/jspr-helper/jspr_helper.py:156-173 | any partition of the same bytes into reads gives the same lines and leftover as one read |
| `JsprLines.RenderParses` | cmd/jspr-helper/jspr_helper.py:85-117 | a well-formed line parses to its code, target and body |
| `JsprLines.ParsesIff` | cmd/jspr-helper/jspr_helper.py:85-103 | a line parses if and only if its first digit begins three that make a number from 200 to 500, and that is its code |
| `JsprLines.JunkDelivered` | cmd/jspr-helper/jspr_helper.py:89-93 | whatever stands before the first digit, and white space around the line, is skipped |
| `JsprLines.BareLineParses` | cmd/jspr-helper/jspr_helper.py:113-115 | a line without a body has an empty one |
| `JsprLines.GapDropped` | cmd/jspr-helper/jspr_helper.py:107-112 | what stands between target and body is dropped |
| `JsprLines.BodyOpensAsObject` | cmd/jspr-helper/jspr_helper.py:105-117 | every parsed line's body opens as an object, so the settle loop never meets JSON of another kind |
| `JsprLines.ReaderDeliversTransmission` | cmd/jspr-helper/jspr_helper.py:156-173 | however well-formed lines are broken into reads, the reader delivers exactly them, in order, and holds nothing back |
| `CrcTable.TableEntry` | cmd/jspr-helper/jspr_helper.py:32-65 | each of the 256 constants is the bit-by-bit remainder of its index |
| `Crc16.HelperCrc` | cmd/jspr-helper/jspr_helper.py:68-72 | the table loop computes the bit-by-bit CRC from a zero register |
| `Crc16.FrameCrc` | scripts/hf10m_ref.py:50-56 | the nested bit loop computes the same CRC from a register of ones |
| `Crc16.TableEqualsBitwise` | cmd/jspr-helper/jspr_helper.py:68-72 | from any register the table-driven and the bit-by-bit CRC agree on every byte string |
| `CrcTable.Registers` | scripts/hf10m_ref.py:51-55 | the initial registers and the polynomial are the printed constants |
| `Crc16.ResidueIsZero` | scripts/hf10m_ref.py:69-69 | a body followed by its big-endian CRC drives the register to zero |
| `Crc16.AdjacentDamageDetected` | scripts/hf10m_ref.py:50-56 | bodies of one length that differ only within two adjacent bytes never share a CRC |
| `Gf2.Gf2Solve` | scripts/hf10m_ref.py:25-38 | the in-place elimination computes the specified one, a missing pivot included |
| `Gf2.FindPivot` | scripts/hf10m_ref.py:31-31 | the first row from the diagonal down with a one in the column, or none |
| `Gf2.SwapRows` | scripts/hf10m_ref.py:32-33 | both sides are swapped and nothing else |
| `Gf2.ClearColumn` | scripts/hf10m_ref.py:34-37 | every other row with a one in the column is xored with the pivot row, right-hand side alike |
| `Gf2.EliminateCorrect` | scripts/hf10m_ref.py:30-37 | from any partly reduced state the rest of the elimination keeps the solutions, or fails with a kernel vector at that column |
| `Gf2.SolveCorrect` | scripts/hf10m_ref.py:25-38 | it succeeds if and only if the kernel is trivial; then its result is the one solution; else a nonzero kernel vector is exhibited |
| `Gf2.DotIsParity` | scripts/hf10m_ref.py:44-46 | a row times a vector is the parity of their common ones |
| `Ldpc.LdpcEncode` | scripts/hf10m_ref.py:41-47 | filling the two index sets and solving for the parity computes the specified codeword |
| `Ldpc.EncodeCorrect` | scripts/hf10m_ref.py:41-47 | encoding succeeds if and only if the parity columns have a trivial kernel; the result is the one codeword with these information bits in place |
| `Ldpc.EncodeLinear` | scripts/hf10m_ref.py:41-47 | the code of a sum is the sum of the codes |
| `Ldpc.PlacesByNumber` | scripts/hf10m_ref.py:21-22 | information stands at columns 0 to 62 and 67, parity at the others in order |
| `Ldpc.CodewordIffEven` | scripts/hf10m_ref.py:46-46 | a codeword shares an even number of ones with every row |
| `Ldpc.InfoOfEncoded` | scripts/hf10m_ref.py:77-77 | the information bits of the encoded blocks are the bits |
| `Ldpc.EncodedAreCodewords` | scripts/hf10m_ref.py:77-77 | every block that the encoder of H makes of a bit stream satisfies all checks, and the blocks carry the stream |
| `Ldpc.CoderIsEncoder` | scripts/hf10m_ref.py:41-47 | for a matrix with a trivial parity kernel the coder that bursts use is, on every block, the encoder of that matrix |
| `Interleaver.PlacesAreBijective` | scripts/hf10m_ref.py:78-78 | the two place maps are inverse to each other for every row count |
| `Interleaver.SentByColumns` | scripts/hf10m_ref.py:78-78 | place c of row r goes out at place r of column c |
| `Interleaver.UndoInterleave` | scripts/hf10m_ref.py:78-78 | undoing the interleaver returns the input |
| `Interleaver.BurstSpreads` | scripts/hf10m_ref.py:78-78 | two transmitted bits less than the row count apart come from different rows |
| `Interleaver.BurstHitsBlockEightTimes` | scripts/hf10m_ref.py:77-78 | at most 8n consecutive transmitted bits touch each 16-bit row at most once and each 128-bit codeword at most eight times |
| `Radix40.Pack` | scripts/hf10m_ref.py:59-64 | the accumulating loop computes the base-40 value in six bytes, or its two errors |
| `Radix40.PackedCallComesBack` | scripts/hf10m_ref.py:59-64 | a call of at most nine characters packs if and only if the alphabet spells it; it fits 48 bits and unpacks to its padded upper-case form |
| `Radix40.PackedNumber` | scripts/hf10m_ref.py:13-64 | the six bytes, big-endian, are the nine upper-case places filled up with spaces and read in base 40, digit by digit |
| `Hf10m.InnerReadsBack` | scripts/hf10m_ref.py:67-69 | reading any inner frame passes its check and returns every field; a fragment total over 15 runs into the index, so the two come back if and only if it is at most 15 |
| `Hf10m.FrameLayout` | scripts/hf10m_ref.py:67-69 | the offset of every field, the two header bytes, and a residue of zero |
| `Hf10m.DamagedFrameUnreadable` | scripts/hf10m_ref.py:67-69 | a frame damaged within two adjacent bytes, its CRC included, does not read |
| `Hf10m.BurstComesBack` | scripts/hf10m_ref.py:72-80 | a burst is refused only for an empty frame or one over 255 blocks; undone, it is the frame's bits and fewer than 64 zeros |
| `Hf10m.FrameRecovered` | scripts/hf10m_ref.py:72-80 | the packed front of the undone bits is the frame |
| `Hf10m.BurstBytes` | scripts/hf10m_ref.py:80-80 | the bytes around the payload and the block count |
| `Hf10m.BitOrder` | scripts/hf10m_ref.py:73-79 | bits are unpacked most significant first |
| `Hf10m.OnAirPlaces` | scripts/hf10m_ref.py:77-79 | where each coded bit is on the air |
| `Hf10m.BurstCarriesCodewords` | scripts/hf10m_ref.py:72-80 | for every matrix with a trivial parity kernel and every frame that fits, the transmitted payload, unpacked and de-interleaved, is one codeword of H per block, and their information bits are the frame and its padding |
| `Hf10m.InnerFitsThirtySixBlocks` | scripts/hf10m_ref.py:67-76 | with a 16-byte destination an inner frame needs at most 36 blocks, so its burst is never refused |
| `FullLearning.FullLearner.Update` | scripts/x1202-monitor.py:142-158 | one sample moves the learner as specified and returns its full point |
| `FullLearning.LearnsIff` | scripts/x1202-monitor.py:142-158 | after any samples and any full point, a sample becomes the full point if and only if the plateau it is on began 1200 s ago or more, it is 85 or more, and it is 0.5 or more from the full point held |
| `FullLearning.PlateauStartIff` | scripts/x1202-monitor.py:143-148 | a plateau begins where the one before does not reach and runs while samples are on mains at 4.10 V or more and within 0.25 of its first |
| `FullLearning.PlateauTeaches` | scripts/x1202-monitor.py:142-158 | 1200 s of level samples after one off charge, or from the start, leave a full point within 0.5 of the last |
| `FullLearning.LearningsAreSpaced` | scripts/x1202-monitor.py:146-155 | any two changes of the full point in a run are at least 1200 s apart |
| `DischargeCurve.SocRises` | scripts/x1202-monitor.py:161-170 | the voltage curve never falls and stays between 0 and 100 |
| `DischargeCurve.CurveShape` | scripts/x1202-monitor.py:73-82 | the curve goes through its eight points, straight between them and flat outside |
| `DischargeCurve.TwentyFrom355` | scripts/x1202-monitor.py:73-82 | from 3.55 V up the curve is at 20 or more |
| `Shutdown.CurveBranchIsDead` | scripts/x1202-monitor.py:180-187 | the curve's halt branch is never taken, and exactly which readings vote halt |
| `Shutdown.ShutdownDecider.Update` | scripts/x1202-monitor.py:206-230 | one reading moves the vote window and returns the specified decision with its reason |
| `Shutdown.DecisionOfLastFour` | scripts/x1202-monitor.py:196-230 | in every run the decision, reason included, is that of the window of the last four valid readings |
| `Shutdown.VerdictIff` | scripts/x1202-monitor.py:173-190 | which readings vote halt and which warn, in volts and percent, and with what reason |
| `Shutdown.DecisionIff` | scripts/x1202-monitor.py:206-230 | after every run: a halt if and only if the reading is under 3.30 V with no gauge of 20 or more, or three of the last four plausible readings vote halt; a warning if and only if it is no halt and the gauge is doubted; with the reason |
| `Shutdown.InvalidReadsDoNotMatter` | scripts/x1202-monitor.py:207-212 | runs with the same valid readings decide alike |
| `Shutdown.WeakerPackHaltsNoLater` | scripts/x1202-monitor.py:206-230 | where readings are valid together, a run pointwise no higher halts wherever the other does |
| `Shutdown.LoweringKeepsHaltsIffPlausible` | scripts/x1202-monitor.py:209-212 | lowering a valid reading keeps every halt, after every run, if and only if the lower one is at least 2.50 V |
| `Charging.ChargeWatch.Append` | scripts/x1202-monitor.py:287-291 | appending and popping from the left is the specified trim |
| `Charging.ChargeWatch.Update` | scripts/x1202-monitor.py:268-315 | one poll moves the watch as specified, with one log line exactly when the flag changes |
| `Charging.DequeIsWindow` | scripts/x1202-monitor.py:287-291 | after every poll the deque is the suffix of the whole history since the last reset that starts at the last sample at or before the window's left edge |
| `Charging.NeverChargingWhenInsufficient` | scripts/x1202-monitor.py:317-326 | charging is never reported while the input is flagged insufficient |
| `Charging.LowIsEpisodeMinimum` | scripts/x1202-monitor.py:293-308 | the episode's low is the least reading taken in it |
| `Charging.EpisodesAreSpaced` | scripts/x1202-monitor.py:293-308 | from the end of an episode, by recovery or by lost mains, to the start of any later one is at least 1800 s |
| `ChargeRules.PeakIsHighest` | scripts/x1202-monitor.py:304-304 | the peak is a sample and no sample is above it |
| `ChargeRules.EpisodeStartsIff` | scripts/x1202-monitor.py:301-308 | after every run an episode starts if and only if mains is present with a reading, none runs, a sample since the last recovery is half an hour old, one of the window is 2.0 or more above the reading, and the voltage is not known to be 4.10 V or more |
| `ChargeRules.EpisodeEndsIff` | scripts/x1202-monitor.py:271-298 | it ends if and only if a reading is 0.5 or more above some reading taken in it, or mains has been gone for a minute |
| `ChargeRules.ResetsIff` | scripts/x1202-monitor.py:271-278 | everything is reset if and only if mains was seen gone a minute ago or more and not present since |
| `ChargeRules.ChargingIff` | scripts/x1202-monitor.py:317-326 | what charging says after every poll, from the history |
| `UpsMonitor.Monitor.Step` | scripts/x1202-monitor.py:340-348 | one poll through learner, charge watch and, after the boot grace, decider, in that order |
| `PeerNames.Itoa` | internal/api/ble_peer_manager.go:307-319 | the digits laid backwards never overrun the 20 bytes and are the decimal form |
| `PeerNames.DecimalValue` | internal/api/ble_peer_manager.go:307-319 | the decimal form reads back as the number |
| `PeerNames.NamesAreDistinct` | internal/api/ble_peer_manager.go:300-303 | no two sequence numbers share a name |
| `PeerNames.NameReadsBack` | internal/api/ble_peer_manager.go:300-303 | a name is the prefix and the number in decimal |
| `BlePeers.BLEPeerManager.AllocNameLocked` | internal/api/ble_peer_manager.go:281-298 | it ends, with the first name from the counter on that no slot uses |
| `BlePeers.BLEPeerManager.Begin` | internal/api/ble_peer_manager.go:104-130 | the first critical section claims the slot, or leaves it alone when it is starting or online; a stale client is stopped |
| `BlePeers.BusySlotLeftAlone` | internal/api/ble_peer_manager.go:106-114 | a call for an address whose client is starting or online changes nothing |
| `BlePeers.FreeSlotTaken` | internal/api/ble_peer_manager.go:115-123 | any other call takes the slot under the next name and stops the stale client |
| `BlePeers.CallCompletes` | internal/api/ble_peer_manager.go:100-180 | such a call that starts and commits leaves its client live in the slot and the rest as it was |
| `BlePeers.FailedCallCanRetry` | internal/api/ble_peer_manager.go:152-163 | one that fails leaves no slot |
| `BlePeers.BLEPeerManager.RemoveLocked` | internal/api/ble_peer_manager.go:252-265 | the slot goes and its client, if any, is the one to stop |
| `BlePeers.RemovalStopsClient` | internal/api/ble_peer_manager.go:252-265 | a removal deletes that slot and stops its client, and nothing else |
| `BlePeers.BLEPeerManager.CleanUp` | internal/api/ble_peer_manager.go:157-161 | after a failed start the slot goes only if it is this call's placeholder |
| `BlePeers.CommitKeepsTied` | internal/api/ble_peer_manager.go:167-169 | while every call holds its own placeholder, the commit keeps each slot tied to one live client or one call on its way |
| `BlePeers.FirstPassSuffices` | internal/api/ble_peer_manager.go:281-298 | while all names in use came from earlier numbers the allocation ends on its first pass |
| `BlePeers.NamesNeverReused` | internal/api/ble_peer_manager.go:281-298 | in every interleaving the next name was issued to no earlier call and is in no slot |
| `BlePeers.FailedStartDeletesOnlyItsOwn` | internal/api/ble_peer_manager.go:152-163 | in every interleaving, removals included, a failed start deletes at most the placeholder issued to it |
| `BlePeers.AtMostOneClientPerAddress` | internal/api/ble_peer_manager.go:94-180 | without a removal during a start, each address has at most one client starting or live in every interleaving |
| `BlePeers.RemovalSafeIffNotStarting` | internal/api/ble_peer_manager.go:241-249 | a removal followed by a new call keeps that if and only if the slot was not being started |
| `BlePeers.FirstClientLeaks` | internal/api/ble_peer_manager.go:94-180 | otherwise both clients can come up with the first live, in no slot and with no call left |
| `BlePeers.OrphanForever` | internal/api/ble_peer_manager.go:239-265 | such a client stays live and in no slot through every later step, removals included |
| `Kiss.TwoPassesAreOne` | scripts/fake_rnode.py:23-24 | replacing the escape, then the delimiter, is escaping byte by byte |
| `Kiss.EscapeComesBack` | scripts/fake_rnode.py:23-36 | an escaped string holds no delimiter and unescapes to itself |
| `Kiss.EscapeByNumber` | scripts/fake_rnode.py:17-24 | C0 becomes DB DC, DB becomes DB DD, byte by byte, and nothing else changes |
| `Kiss.UnescapeByNumber` | scripts/fake_rnode.py:27-36 | unescaping pair by pair, no code kept as it is and a last DB lost |
| `Kiss.FrameByNumber` | scripts/fake_rnode.py:39-40 | the bytes of a frame; what comes before the first delimiter is ignored |
| `Kiss.UnescapeBytes` | scripts/fake_kiss_tnc.py:25-34 | the loop with its flag computes the specified unescape on every string, malformed ones included |
| `Kiss.ChunksDeliverTheSame` | scripts/fake_rnode.py:77-84 | from any parser state every chunking delivers the same raw frames |
| `Kiss.ParserResynchronises` | scripts/fake_kiss_tnc.py:54-62 | from any state, for every list of frames and chunking, the parser delivers at most one leftover and then exactly what those frames are on the wire, in order |
| `Kiss.CarriedIffNoDelimiter` | scripts/fake_rnode.py:39-40 | for every list and chunking an idle parser delivers the list itself if and only if no command in it is the delimiter |
| `FakeRadios.RNodeSide.Handle` | scripts/fake_rnode.py:60-75 | what one message writes back to the host and on to the peer |
| `FakeRadios.RNodeByNumber` | scripts/fake_rnode.py:60-75 | which command numbers are answered, and with what |
| `FakeRadios.RNodeSide.Feed` | scripts/fake_rnode.py:77-84 | over any bytes the two output streams are the replies and relays of the raw frames delivered, in order |
| `FakeRadios.TncSide.HandleFrame` | scripts/fake_kiss_tnc.py:64-73 | a data frame of any port is relayed as port 0, and acknowledged if asked for; a command frame writes nothing |
| `FakeRadios.TncByNumber` | scripts/fake_kiss_tnc.py:64-73 | which type bytes are data, and what becomes of them |
| `FakeRadios.TncSide.Feed` | scripts/fake_kiss_tnc.py:54-62 | the same for the TNC side |
| `FakeRadios.StreamArrives` | scripts/fake_rnode.py:71-84 | for any map from messages to messages: however frames are chunked into a side and out of it, the reader of its output decodes exactly what the map makes of them, in order |
| `FakeRadios.RNodePairIsTransparent` | scripts/fake_rnode.py:71-73 | for every list and chunking the far host of an RNode pair decodes exactly the data payloads written, if and only if no frame has the delimiter for a command with a zero behind it |
| `FakeRadios.TncPairIsTransparent` | scripts/fake_kiss_tnc.py:64-70 | for every list and chunking the far host of a TNC pair decodes exactly the data payloads written, if and only if none is of port 12, whose type byte is the delimiter |
| `FakeRadios.PortTwelveGarbled` | scripts/fake_kiss_tnc.py:64-70 | a port 12 payload that goes on as a shorter one of port 0 |
| `FakeRadios.RNodeHostAnswered` | scripts/fake_rnode.py:60-75 | an RNode's own host decodes its answers in order, with exactly one ready for each payload relayed when readies are on, and none when they are off |
| `FakeRadios.TncHostAnswered` | scripts/fake_kiss_tnc.py:64-70 | the same for a TNC's own host |
| `Dmr858m.ChecksumOf` | scripts/dmr858m-config.py:27-35 | words, trailing byte and folding loop end and give 65535 minus the one residue of the byte-weighted sum in 1 .. 65535 |
| `Dmr858m.FoldStep` | scripts/dmr858m-config.py:33-34 | a fold is smaller and keeps the residue modulo 65535 |
| `Dmr858m.BuildFrame` | scripts/dmr858m-config.py:37-40 | the patched byte array is the specified frame; fields out of byte range and payloads over 65535 bytes are refused |
| `Dmr858m.BuiltByNumber` | scripts/dmr858m-config.py:37-40 | which arguments build a frame, and its bytes |
| `Dmr858m.ParseFrame` | scripts/dmr858m-config.py:42-48 | the specified parse, with every way to refuse |
| `Dmr858m.ParsedByNumber` | scripts/dmr858m-config.py:42-48 | which buffers parse, and which places the fields come from |
| `Dmr858m.BuiltFoldsToOnes` | scripts/dmr858m-config.py:37-40 | the whole built frame folds to 0xFFFF |
| `Dmr858m.ParseUndoesBuild` | scripts/dmr858m-config.py:37-48 | parsing a built frame, whatever follows it, returns its fields |
| `Dmr858m.DamageRejectedIff` | scripts/dmr858m-config.py:42-48 | one changed byte outside the length field, whatever follows the frame, is rejected if and only if it is the head or tail or the received checksum field is nonzero |
| `Dmr858m.FieldZeroIff` | scripts/dmr858m-config.py:37-40 | a frame is sent with a zero field, so unprotected, if and only if its sum is a multiple of 65535 |
| `Dmr858m.DamageCanPass` | scripts/dmr858m-config.py:42-48 | such a frame, and a changed command in it that parses |
| `Dmr858m.LengthDamageAcceptedIff` | scripts/dmr858m-config.py:44-47 | whatever follows the frame, a changed length passes if and only if the buffer reaches that far, the byte there is a tail, and the checksum field is zero or what is cut off or taken in moves the sum by a multiple of 65535 |
| `Dmr858m.LengthDamageCanPass` | scripts/dmr858m-config.py:44-47 | a frame whose length can go from three to zero unnoticed |

## Left out

- JSON text: a modem line arrives with its document already decoded. Lists and objects inside a document are compared by identity, and there is no NaN.
- Host command defaults and types (`run`, lines 585 to 607): the request's fields are parameters; a timeout that is not a number is not modelled.
- Serial errors, sleeping and log lines of the helper; the plain command branch of its event loop only appears as a command that is not a send.
- `cmd/jspr-helper/main.c`: serial I/O without the send state machine.
- The parity-check matrix is a parameter; the file that holds it is not part of this model, and neither is decoding of noisy bursts.
- Upper-casing in radix-40 covers ASCII letters.
- Voltages, charge and time are reals, so floating-point rounding is not modelled; nor are the saved full point with its rounding to two places, `scale_soc`, the status file, GPIO and I2C.
- Log and reason texts of the monitor are data, not strings.
- BLE: packet callbacks, interface registration, address normalisation, the dormant manager, manifests and signatures. A start either comes up or fails, and a call begins only while the name counter is below 2^63 - 1.
- The fake radios' sockets and their parameter log; a host that receives replies and relayed frames together is not modelled, only each stream by itself.
- HTTP handlers, `cmd/meshsat` wiring, the web UI, printers, reports and `scripts/dcf77_verify.py`: mostly one-branch facts or calls into code elsewhere.
