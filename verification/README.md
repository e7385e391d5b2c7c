# LTE base station: HARQ, random access, front-end handshake and their kernels

A Dafny model of the scheduling side of an LTE physical layer, with proofs about whole runs of it. Three state machines carry
most of the weight:

* **HARQ and the UE table of the base station.** Downlink processes advance on feedback (`DlHarq`), the terminal forms the
  acknowledgement (`AckTables`), and both ends are put into one run (`AckEndToEnd`). The ten-entry rings between transmit and
  receive side are shared by two threads (`SubframeRing`). Uplink HARQ, the Msg3 exchange of random access and the uplink
  failure counter are in `UlHarq`, slot allocation in `UeTable`, contention-based access in `Cba`.
* **The two-thread front end.** `FepHandshake` is an interleaved step system with program counters, a mutex, one condition
  variable used in both directions (with spurious wakeups) and the instance counter. It refines the sequential front end of
  `FrontEndSlots`.
* **The background process.** `BackgroundSystem` has N callers, a mutex, two bounded byte pipes with arbitrary partial reads
  and writes and one server; `PipeCodec` holds the encodings and the pipe loops.

The kernels are `Msg3Timing`, `Pucch`, `Occasions`, `Mib`, `BitString` and `NdiToggle`. `FrameTiming` holds frame arithmetic
and the subframe directions; time is a natural number, and frame numbers wrap at 1024.

Code that updates state is a class whose methods are proved equal to a function on the state (`Apply`, `Receive`, `Step`, ...);
the properties are proved about runs of that function. Demodulation and decoding outcomes, grants, schedules of threads, chunk
sizes of pipes and MAC's answers are inputs, quantified over. `NUMBER_OF_UE_MAX`, the round limits, the error thresholds and
the window sizes are parameters.

## What the proofs found

Each of these has a lemma; the code is modelled as it is.

* The timed lock of the front end uses an absolute deadline of 5 ms after the epoch, so it fails whenever the worker holds the
  mutex at that moment, and the program exits (`FepHandshake.LockTimeoutExactly`, `LockTimeoutReachable`). Everything else
  about the handshake holds, including that "FEP thread busy" is unreachable.
* The two-thread front end reads the shared subframe number, the sequential one its caller's copy; they agree exactly when the
  two are equal (`FrontEndSlots.SameSubframeNeeded`). `FepHandshake` takes them as equal.
* `BIT_STRING_to_uint64` shifts an `int`: longer than one byte it is right exactly for at most 39 bits and values below 2^31
  (`BitString.FitsIntByValue`, failing strings in `WideFails`). The documentation promises 64 bits.
* `get_Msg3_alloc` skips downlink subframe 3 in TDD configuration 5, and `get_Msg3_harq_pid` prepares a process that does not
  exist for a response in subframe 4 of configurations 1 and 4 (`Msg3Timing.Msg3HandledExactly`, `Msg3ProcessAgreesExactly`).
* The base station writes `subframe_tx` and `harq_ids` four subframes before the block is on the air, into ten entries, so an
  entry is written again six subframes after it. Reports come seven subframes after subframes 0 and 5 in TDD configuration 1
  and subframe 5 in configuration 3: they are booked on the block just prepared for the next frame, which is closed as
  acknowledged without having been sent, or lost if there is none. An entry is read rightly exactly for delays up to six
  (`AckEndToEnd.BothEndsAgreeExactly`, `NoFalseAckExactly`, `LateReportHitsNextBlock`, `LateReportIsLost`, `FalseAck`). With
  the two parity threads, woken in subframe order (`RxTxThreads`), delay five fails as well: the other thread may be clearing
  the entry (`SubframeRing.ReadsRightExactly`, `AckEndToEnd.ThreadedReportsExactly`).
* In TDD configuration 1 a lone block of subframe 1 or 6 is never looked for on PUCCH (`AckEndToEnd.LookedForExactly`).
* TDD configuration 3 never acknowledges subframe 1 (`AckEndToEnd.NeverReportedExactly`).
* A multiplexed PUCCH report without a scheduling request is always taken as a refusal
  (`DlHarq.MultiplexedReportNeverAcks`, `AckEndToEnd.MultiplexedReportRefuses`).
* Clearing process 0 at the first scheduling request loses a block from the accounts exactly when that process is in a
  retransmission (`DlHarq.FirstSchedulingRequestKeepsFlowExactly`).
* The rate-adaptation window is tested for equality with the number of blocks sent: once the count has passed it, it never
  starts again and the offset never rises. The window and the error threshold are never assigned, so both are 0 as allocated:
  no window ever completes, and the first first-round refusal lowers the offset to -1 for good
  (`DlHarq.WindowMissedForever`, `UnsetWindowNeverRecovers`). A completed window with more than two refusals lowers the offset
  to -1 from wherever it was, not by one step (`BitAdapts`).
* With a scheduling request a multiplexed report for a single downlink subframe is always taken as a refusal
  (`AckEndToEnd.SrReportExactly`).
* Giving up a random access leaves `phich_active` set in the freed slot, and nothing clears it until the next response in that
  slot does; this is the "unidentified reason" of the comment at phy_procedures_lte_eNb.c:1048
  (`UlHarq.GivingUpVacates`, `VacantStays`, `ResponseStartsAfresh`). A delivered but empty Msg3 leaves the mode of the freed
  slot at PUSCH (`UlHarq.GoodAttempt`).
* The uplink failure test is an equality; with the threshold set to 0 on the command line it misses
  (`UlHarq.ThresholdNeverPassedExactly`), and so it can when the two parity threads receive a second subframe before the
  first one's check (`UlHarq.NeverPassesExactly`, `OverlapIsPossible`, `OverlapMisses`).
* `find_next_ue_index` ignores whether a slot has memory, and adding a live identifier again breaks the table
  (`UeTable.NextSlotPredictsExactly`, `AddKeepsTableExactly`).
* Control channel elements from N_3 on collide on PUCCH (`Pucch.CollisionFreeExactly`).
* Contention-based access judges collisions by counter, not by identifier, and hands flags on by group count. Under MAC's rule,
  that each user with groups has the identifier of its own counter, this is right for every mixture of group counts
  (`Cba.CollisionsJudgedRightly`, `MacFlagsClearExactly`). A grant to a group also writes the group's identifier to index 0 of
  its representative; that breaks the rule only if the representative counts in counter 0, which for a group other than 0
  happens once its number of groups has been lowered (`GrantKeepsRuleExactly`). For the identifiers left then,
  `AlwaysJudgedExactly` and `AllFlagsClearIff` say when judging and handing on are still right.

## Model

| member | source | states |
|---|---|---|
| FepHandshake.InterleavingRefinesSequential | openair1/SCHED/phy_procedures_lte_eNb.c:2715-2757 | After any schedule, whenever the caller is between calls, executing what both threads did, with any meaning of the slot operations, gives the store that the sequential front end gives for the subframes the calls were made for. |
| FepHandshake.EachCallProcessesItsSlotsOnce | openair1/SCHED/phy_procedures_lte_eNb.c:2620-2638 | A call that returns has given each slot of the subframe it was made for the 7.5 kHz removal and then every symbol exactly once, and no other slot anything. |
| FepHandshake.SafeHandshake | openair1/PHY/defs.h:985-1045 | The counter stays in {-1, 0}, the busy exit is unreachable with one caller, and the two threads never sleep at the same time. |
| FepHandshake.NoLostWakeup | openair1/SCHED/phy_procedures_lte_eNb.c:2644-2665 | A thread sleeps on a condition that already holds only while the other one is about to signal, although both directions share one variable and the worker signals after unlocking. |
| FepHandshake.NeverDeadlocked | openair1/PHY/defs.h:985-1027 | Inside a call some thread can always step without a spurious wakeup. |
| FepHandshake.CallReturns | openair1/SCHED/phy_procedures_lte_eNb.c:2715-2757 | A call takes a bounded number of steps of the two threads, apart from spurious wakeups, before it returns. |
| FepHandshake.LockTimeoutExactly | openair1/SCHED/phy_procedures_lte_eNb.c:2719-2731 | The timed lock fails exactly when the mutex is held, which at that moment only the worker testing the counter can do. |
| FepHandshake.LockTimeoutReachable | openair1/SCHED/phy_procedures_lte_eNb.c:2719-2731 | A schedule in which it fails exists. |
| FrontEndSlots.SameProjectionsSameMeaning | openair1/SCHED/phy_procedures_lte_eNb.c:2620-2638 | Operations on different slots commute: logs that agree slot by slot have the same effect. |
| FrontEndSlots.FullLogPerSlot | openair1/SCHED/phy_procedures_lte_eNb.c:2761-2786 | The sequential front end gives both slots of the subframe their whole program, in order, and touches no other. |
| FrontEndSlots.SameSubframeNeeded | openair1/SCHED/phy_procedures_lte_eNb.c:2620-2632 | The two front ends do the same to every slot if and only if the shared and the caller's subframe number are equal. |
| FrontEndSlots.FrontEnd.Fep0 | openair1/SCHED/phy_procedures_lte_eNb.c:2620-2638 | The slot gets its program once, after what was logged before; other slots are untouched. |
| FrontEndSlots.FrontEnd.FepFull | openair1/SCHED/phy_procedures_lte_eNb.c:2761-2786 | The loop appends the sequential log of the subframe. |
| BackgroundSystem.OwnStatusInLockOrder | common/utils/system.c:117-141 | The k-th call to return is the k-th that took the lock; the command run for it is the one that caller had called with, and it returns 0 if and only if that command exited with code 0 and -1 otherwise, for any number of callers and any chunking. |
| BackgroundSystem.TurnsAreCalls | common/utils/system.c:117-141 | Each lock holder holds the command of its latest call. |
| BackgroundSystem.AbortsExactly | common/utils/system.c:124-130 | The program is stopped if and only if some call was made with a command that, with its NUL, is longer than MAX_COMMAND. |
| PipeCodec.ReturnValueExactly | common/utils/system.c:139-140 | Over all ways a command can end (exit code, signal with or without core, no child) and their wait status: 0 if and only if it exited with code 0, -1 otherwise. |
| BackgroundSystem.CommandsRunInLockOrder | common/utils/system.c:98-110 | The server runs exactly the commands the lock holders had called with, in lock order, none twice. |
| BackgroundSystem.QuietWhenUnlocked | common/utils/system.c:117-141 | Whenever the lock is free both pipes are empty and the server waits for a new command. |
| BackgroundSystem.ServerBufferNeverOverrun | common/utils/system.c:98-110 | The server never asks for more than fits in its command buffer. |
| BackgroundSystem.HolderOrServerCanMove | common/utils/system.c:69-87 | With room for one byte per pipe, the lock holder or the server can always move. |
| BackgroundSystem.WorkEndsCriticalSection | common/utils/system.c:117-141 | Each step of the holder or the server lowers a bound on what is left before the lock is released, and no other caller's step raises it. |
| PipeCodec.IntRoundTrip | common/utils/system.c:105-108 | A 32-bit integer survives its bytes. |
| PipeCodec.CStringOfTerminated | common/utils/system.c:106-107 | A terminated command is read back as itself from the buffer. |
| PipeCodec.Pipe.WritePipe | common/utils/system.c:69-77 | Whatever the partial writes, the pipe has gained exactly the first size bytes, in order. |
| PipeCodec.Pipe.ReadPipe | common/utils/system.c:79-87 | Whatever the partial reads, the buffer holds the first size bytes of the pipe, which has lost them. |
| AckEndToEnd.NoFalseAck | openair1/SCHED/phy_procedures_lte_eNb.c:1710-1805 | Over every run, for a block reported at most six subframes after it was on the air (all in FDD): if the terminal decoded every block of the report, its process, if in flight, is closed as acknowledged and nothing is counted as refused or lost; otherwise nothing is acknowledged and the process is refused and advances a round or is dropped. |
| AckEndToEnd.NoFalseAckExactly | openair1/SCHED/phy_procedures_lte_eNb.c:1306-1310 | That holds in every run if and only if the report comes at most six subframes after the block. |
| AckEndToEnd.OnlyDecodedAreClosed | openair1/SCHED/phy_procedures_lte_eNb.c:1773-1800 | In a report all of whose entries are timely a process is closed only if a block the report is about was granted to that process number, and the terminal decoded it and every other block of the report. |
| AckEndToEnd.BlockIsInFlight | openair1/SCHED/phy_procedures_lte_eNb.c:1710-1805 | A block is still in flight when its timely report comes, as its grant left it and with the size of the grant that started it, if its process is not granted again before that and was granted before only for blocks whose reports were due by its grant (in FDD eight subframes before is early enough). |
| AckEndToEnd.BlockIsSettled | openair1/SCHED/phy_procedures_lte_eNb.c:1732-1800 | Processing that report closes the block as acknowledged if the terminal decoded all the report is about, and refuses it otherwise. |
| AckEndToEnd.BothEndsAgree | openair1/SCHED/phy_procedures_lte_common.c:413-662 | The base station's entry and the terminal's record of a timely reported subframe speak of the same transmission, or of none. |
| AckEndToEnd.BothEndsAgreeExactly | openair1/SCHED/phy_procedures_lte_eNb.c:1306-1310 | They do so in every run if and only if the report comes at most six subframes after the block. |
| AckEndToEnd.RecordsWhenDue | targets/RT/USER/lte-enb.c:586-616 | When a report is due the terminal's record is about the block on the air then, the ring entry about the block prepared last. |
| AckEndToEnd.TimelyReportsExactly | openair1/SCHED/phy_procedures_lte_common.c:278-340 | Exactly which reports have only timely entries. |
| AckEndToEnd.ThreadedReportsExactly | targets/RT/USER/lte-enb.c:1246-1272 | With the two parity threads, for exactly which subframes every report reads the right entry under every schedule the front end allows. |
| AckEndToEnd.LookedForExactly | openair1/SCHED/phy_procedures_lte_eNb.c:1862-1973 | Without an opportunity for a scheduling request the base station looks for a report on PUCCH if and only if the ring entry of a subframe of the set, other than 1 and 6 of configuration 1, is set; at delay seven that entry belongs to the block just prepared. |
| AckEndToEnd.LateReportHitsNextBlock | openair1/SCHED/phy_procedures_lte_eNb.c:1710-1805 | A report seven subframes after the block closes or refuses the block just prepared, three subframes before that is on the air. |
| AckEndToEnd.LateReportIsLost | openair1/SCHED/phy_procedures_lte_eNb.c:1306-1310 | Without a new grant such a report is dropped and the process of the decoded block stays in flight. |
| AckEndToEnd.FalseAck | openair1/SCHED/phy_procedures_lte_eNb.c:1773-1800 | A run of configuration 1 in which the acknowledgement of process 0 closes process 1, whose block is then not decoded. |
| AckEndToEnd.BitMeansAllDecoded | openair1/SCHED/phy_procedures_lte_common.c:413-640 | The terminal's bit is 1 exactly when something was sent in the set and all of it was decoded. |
| AckEndToEnd.StatusExactly | openair1/SCHED/phy_procedures_lte_ue.c:531-535 | In every run the terminal's status is positive, so that it reports, if and only if a block it received is in the report. |
| AckEndToEnd.OtherProcessesUntouched | openair1/SCHED/phy_procedures_lte_eNb.c:1710-1805 | A report leaves every process that no entry of its set names as it was. |
| AckEndToEnd.NeverReportedExactly | openair1/SCHED/phy_procedures_lte_common.c:278-409 | Every downlink subframe is in some set of the terminal and in some set of the base station, if and only if it is not subframe 1 of configuration 3. |
| AckEndToEnd.UniformNak | openair1/SCHED/phy_procedures_lte_eNb.c:1735-1772 | A report of refusals acknowledges nothing, refuses every named block in flight, and leaves round, status and refusal counts of unnamed processes. |
| AckEndToEnd.UniformAck | openair1/SCHED/phy_procedures_lte_eNb.c:1773-1800 | A report of acknowledgements refuses and loses nothing, closes every named block in flight, and leaves round, status and acknowledgement counts of unnamed processes. |
| AckEndToEnd.BlockSettledByItsBit | openair1/SCHED/phy_procedures_lte_eNb.c:1710-1805 | For every report: a block whose process only one entry of the set names is untouched by the other entries and closed or refused by the bit for its own. |
| AckEndToEnd.PuschBitsInOrder | openair1/SCHED/phy_procedures_lte_eNb.c:1638-1646 | On PUSCH without bundling the first block sent in the set is settled by the first bit and the second one by the second, also if the first subframe of the set carried none. |
| AckEndToEnd.SrReportExactly | openair1/SCHED/phy_procedures_lte_eNb.c:1651-1706 | With a scheduling request a multiplexed report closes the blocks of a set of two if and only if its payload is 11 for one block sent or 10 for two; otherwise, and always in FDD and for sets of one, it refuses them. |
| AckEndToEnd.MultiplexedReportRefuses | openair1/SCHED/phy_procedures_lte_eNb.c:1725-1730 | Without a scheduling request a multiplexed report refuses every named block in flight. |
| AckTables.TablesAgree | openair1/SCHED/phy_procedures_lte_common.c:278-409 | The terminal's table and the base station's function pair name the same downlink subframes, in the same order, M of them. |
| AckTables.UeAcks.GetResetAck | openair1/SCHED/phy_procedures_lte_common.c:413-662 | The bundle bit is 1 exactly when all sent blocks were decoded, the status counts what there is to report, and with reset exactly the reported records are cleared. |
| AckTables.StatusMeans | openair1/SCHED/phy_procedures_lte_common.c:433-487 | The status counts the unreported blocks of the set in FDD and configuration 3; in configuration 1 it is 0 if there is none, else the index of the uplink grant received in the last subframe of the set, if any, and 1 if not. It is positive if and only if there is a block to report. |
| AckTables.ResetMeans | openair1/SCHED/phy_procedures_lte_common.c:509-525 | After a reset there is nothing to report; other records are unchanged, and of the reported ones FDD withdraws only the request to send, TDD also the answer, configuration 1 also both assignment indices. |
| DlHarq.RunConserves | openair1/SCHED/phy_procedures_lte_eNb.c:1747-1805 | From idle processes and zeroed statistics, after any events: round below the limit, NAK[r] = ACK[r+1] + NAK[r+1] + in flight at r+1, last-round NAKs = lost blocks, total_TBS = sum of acknowledged sizes, and the rate reports telescope to it. |
| DlHarq.BitSettles | openair1/SCHED/phy_procedures_lte_eNb.c:1755-1800 | One bit closes the block, moves it to its next round with its size, or drops and counts it after its last round; the ring entry of a closed or dropped block names no process, and other processes keep theirs. |
| DlHarq.FeedbackKeepsSize | openair1/SCHED/phy_procedures_lte_eNb.c:1710-1805 | No report changes the size of a block. |
| DlHarq.BitAdapts | openair1/SCHED/phy_procedures_lte_eNb.c:1812-1842 | Above the error threshold the offset falls by one, at most to -1. When the window is complete the counts start again, and the offset rises by one, at most to 1, with fewer than two first-round refusals, stays with two, and is -1 with more. |
| DlHarq.OffsetInRange | openair1/SCHED/phy_procedures_lte_eNb.c:1812-1842 | Over every run the offset is -1, 0 or 1. |
| DlHarq.SendingCounts | openair1/SCHED/phy_procedures_lte_eNb.c:993 | The window counts the blocks sent. |
| DlHarq.WindowMissedForever | openair1/SCHED/phy_procedures_lte_eNb.c:1827 | Once the count has passed the window, in any run, it never starts again, no refusal is forgotten and the offset never rises. |
| DlHarq.WindowCanBeMissed | openair1/SCHED/phy_procedures_lte_eNb.c:993 | The count passes any window if more blocks than that are sent before the next report. |
| DlHarq.UnsetWindowNeverRecovers | openair1/PHY/LTE_TRANSPORT/dlsch_coding.c:142-149 | With window 0, as allocated, over every run the offset is 0 until the first-round refusals pass the threshold and -1 ever after. |
| DlHarq.FeedbackKeepsFlow | openair1/SCHED/phy_procedures_lte_eNb.c:1575-1847 | Any report keeps the conservation law. |
| DlHarq.ClosedBlocksCounted | openair1/SCHED/phy_procedures_lte_eNb.c:1773-1800 | total_TBS grows by exactly the sizes of the blocks the report closes. |
| DlHarq.FirstSchedulingRequestKeepsFlowExactly | openair1/SCHED/phy_procedures_lte_eNb.c:2434-2446 | The clear at the first scheduling request keeps the law if and only if process 0 is not in a retransmission. |
| DlHarq.MultiplexedReportNeverAcks | openair1/SCHED/phy_procedures_lte_eNb.c:1725-1730 | Without a scheduling request a multiplexed report closes nothing, whatever its bits. |
| DlHarq.DlschUser.ProcessHarqFeedback | openair1/SCHED/phy_procedures_lte_eNb.c:1575-1847 | The routine, with its uninitialised bit buffer and its two running indices, computes the feedback function. |
| DlHarq.DlschUser.ApplyBit | openair1/SCHED/phy_procedures_lte_eNb.c:1732-1843 | One bit for one subframe: rounds, counters, ring entry and rate adaptation. |
| SubframeRing.FeedbackReadsItsOwnTransmission | openair1/SCHED/phy_procedures_lte_eNb.c:1597-1599 | For every schedule of the two threads, however far one runs ahead, the entry FDD feedback reads in subframe n is the one filled for transmission n - 4, or untouched before the first. |
| SubframeRing.ReadsRightExactly | targets/RT/USER/lte-enb.c:1246-1272 | For every delay and every subframe number of the report: it reads the entry of its own block under every schedule the front end allows if and only if the delay is at most six and not five. |
| SubframeRing.PossibleRun | targets/RT/USER/lte-enb.c:1246-1272 | Under such a schedule the threads stay within a round of each other, and a starting thread finds the other's two newest entries before its subframe in place. |
| RxTxThreads.OtherIsNear | targets/RT/USER/lte-enb.c:1246-1272 | A thread that starts subframe n finds the other one with n - 1 or n + 1, or not yet started with n + 3. |
| SubframeRing.OnlySameThreadOverwrites | targets/RT/USER/lte-enb.c:1527-1530 | The only write that could spoil an entry before it is read belongs to the same thread, because threads are chosen by parity. |
| SubframeRing.TransmitArithmetic | targets/RT/USER/lte-enb.c:1283-1284 | The computed transmit frame and subframe are those of time n + 4, across the wrap. |
| UlHarq.RandomAccessEnds | openair1/SCHED/phy_procedures_lte_eNb.c:3139-3203 | In FDD, from a response in any vacant slot: attempts come 10, 18, 26, ... subframes later, there are at most maxHARQ_Msg3Tx of them, all before the last failed, and the last one delivers the message or frees the slot. |
| UlHarq.PuschBlockEnds | openair1/SCHED/phy_procedures_lte_eNb.c:3139-3236 | In FDD, from a scheduled PUSCH block in round 0 and whatever the other processes do: attempts are eight subframes apart; every one before attempt j failed, went to its next round with a NAK to be sent and left all counters alone; attempt j is decoded or is number Mlimit and exhausts the block. Either is said once, and the block is not scheduled again. |
| UlHarq.ReceptionSettles | openair1/SCHED/phy_procedures_lte_eNb.c:3116-3305 | One reception in any duplex mode: decoded, with an ACK to be sent and the counter cleared; failed, with a NAK to be sent; or dropped and counted in round Mlimit. |
| UlHarq.PhichAnswers | openair1/PHY/LTE_TRANSPORT/phich.c:1533-1624 | An ACK ends the block's scheduling, a NAK schedules it again in its round; without a request nothing changes. |
| UlHarq.Msg3Ends | openair1/SCHED/phy_procedures_lte_common.c:152-167 | The same from any point of the procedure, with any number of attempts already failed (measure: attempts left). |
| UlHarq.FailedAttempt | openair1/SCHED/phy_procedures_lte_eNb.c:3139-3203 | A failed attempt schedules the next one in the same process eight subframes later, or cancels and removes the user. |
| UlHarq.GoodAttempt | openair1/SCHED/phy_procedures_lte_eNb.c:3300-3335 | A decoded attempt delivers once, moves to PUSCH and clears the error counts; an empty block cancels and frees the slot. |
| UlHarq.GivingUpVacates | openair1/SCHED/phy_procedures_lte_eNb.c:3170-3185 | Giving up frees the slot, with cleared mode and error counts, but leaves exactly one PHICH request standing. |
| UlHarq.VacantStays | openair1/PHY/LTE_TRANSPORT/phich.c:1533-1624 | In a vacant slot no later subframe changes anything, the leftover request included. |
| UlHarq.ResponseStartsAfresh | openair1/SCHED/phy_procedures_lte_eNb.c:1031-1055 | A response in a vacant slot starts a fresh procedure due six subframes after it, with no leftover request. |
| UlHarq.ResponseStarts | openair1/SCHED/phy_procedures_lte_eNb.c:1005-1060 | In general it is one attempt further than the round the process was left in, if that is not the first. |
| UlHarq.WithoutMac | openair1/SCHED/phy_procedures_lte_eNb.c:2971-2976 | Without MAC no Msg3 is prepared, nothing is cancelled, and no decoded block frees the slot. |
| UlHarq.FreeSlotReceivesNothing | openair1/SCHED/phy_procedures_lte_eNb.c:2983-2987 | Nothing is received in a free slot, and a last failure of Msg3 always leaves a free one with nothing due. |
| UlHarq.FailureExactlyAtThreshold | openair1/SCHED/phy_procedures_lte_eNb.c:1215-1223 | Over every run, in FDD and TDD 1, 3, 4, 5: the counter is the number of exhausted blocks since the last success, removal or indication, it never passes the threshold, and failure is indicated exactly at it. |
| UlHarq.SkippedBriefly | openair1/SCHED/phy_procedures_lte_eNb.c:1200-1223 | After an uplink subframe the check runs at once, except after subframes 3 and 8 of TDD 1, where no other uplink subframe comes before it runs. |
| UlHarq.NeverPassesExactly | openair1/SCHED/phy_procedures_lte_eNb.c:1215-1223 | With the receive and check routines of both threads, for any schedule: no outcomes carry the counter past the threshold if and only if every reception is checked before the next one. |
| UlHarq.OverlapIsPossible | targets/RT/USER/lte-enb.c:1246-1272 | From any two uplink subframes in a row the front end allows a schedule that receives both before either is checked, and with some outcomes the counter then passes the threshold. |
| UlHarq.OverlapMisses | openair1/SCHED/phy_procedures_lte_eNb.c:3227-3236 | From any state one below the threshold with two blocks in their last round: both receptions before both checks leave the counter one above the threshold and no failure indicated. |
| UlHarq.ThresholdNeverPassedExactly | openair1/SCHED/phy_procedures_lte_eNb.c:1215-1223 | No sequential run of a user that starts afresh passes the threshold if and only if the threshold is at least 1. |
| UlHarq.ZeroThresholdMisses | openair1/SCHED/phy_procedures_lte_eNb.c:1215-1223 | With threshold 0 the first exhausted block of a user that starts afresh passes the threshold unnoticed. |
| UlHarq.UlschUser.ReceiveSubframe | openair1/SCHED/phy_procedures_lte_eNb.c:2972-3350 | The routine computes the receive function: Msg3 preparation, error and success branches. |
| UlHarq.UlschUser.PrepareMsg3 | openair1/SCHED/phy_procedures_lte_eNb.c:1540-1567 | Msg3 is scheduled exactly at its frame and subframe. |
| UlHarq.PreparedWhenDue | openair1/SCHED/phy_procedures_lte_eNb.c:1540-1567 | In any duplex mode Msg3 is prepared, once, in the one subframe among the next 1024 frames for which it was scheduled. |
| UlHarq.UlschUser.RemoveUser | openair1/PHY/LTE_TRANSPORT/ulsch_decoding.c:167-191 | Everything of the user is cleared except the PHICH requests. |
| UeTable.RunRefinesMap | openair1/SCHED/phy_procedures_lte_eNb.c:146-220 | Any sequence of additions of fresh identifiers and removals returns what a bounded map returns and ends in a table that holds the map, with the three copies equal. |
| UeTable.RunFromEmpty | openair1/SCHED/phy_procedures_lte_eNb.c:146-220 | In particular from the table a new base station starts with. |
| UeTable.FindAfterAddAndRemove | openair1/SCHED/phy_procedures_lte_common.c:1087-1111 | An added user is found in its slot, a removed one is not found, everyone else stays. |
| UeTable.AddKeepsTableExactly | openair1/SCHED/phy_procedures_lte_eNb.c:146-190 | Adding keeps the table sound if and only if the identifier is not live or no slot is free. |
| UeTable.AddFailsExactlyWhenFull | openair1/SCHED/phy_procedures_lte_eNb.c:146-190 | Adding fails if and only if there are as many users as usable slots. |
| UeTable.NextSlotPredictsExactly | openair1/SCHED/phy_procedures_lte_eNb.c:222-236 | The predicted slot is the one the next addition takes if and only if a usable slot is free or all slots are usable. |
| UeTable.LiveAreDistinct | openair1/SCHED/phy_procedures_lte_eNb.c:146-190 | Live identifiers are distinct. |
| UeTable.UeSlots.AddUe | openair1/SCHED/phy_procedures_lte_eNb.c:146-190 | The loop takes the first free slot before one without memory and writes all three copies. |
| UeTable.UeSlots.RemoveUe | openair1/SCHED/phy_procedures_lte_eNb.c:192-220 | The loop clears all three copies of the first matching slot. |
| UeTable.UeSlots.FindUe | openair1/SCHED/phy_procedures_lte_common.c:1087-1099 | The loop returns the first slot whose downlink copy matches, or -1. |
| Cba.ReachedThroughGroup | openair1/SCHED/phy_procedures_lte_eNb.c:2530-2544 | With equal group counts a user is reached exactly when a flagged user stands before it, in steps of the count, with only eligible users between. |
| Cba.HandledExactlyOnce | openair1/SCHED/phy_procedures_lte_eNb.c:2454-2613 | In one pass every reached user is handled exactly once and nobody else. |
| Cba.HandledExactly | openair1/SCHED/phy_procedures_lte_eNb.c:2464-2544 | A user is handled if and only if it is there, is in a group, has an identifier at its own counter, and was flagged at the start or comes as many places after a handled user as that one has groups, with an identifier at that one's counter. |
| Cba.FlagsDuringPass | openair1/SCHED/phy_procedures_lte_eNb.c:2527-2544 | After a pass a flag is left exactly on flagged users that are not eligible. |
| Cba.AllFlagsClearExactly | openair1/SCHED/phy_procedures_lte_eNb.c:2527-2544 | With equal counts all flags are clear at the end if and only if none was set on an ineligible user. |
| Cba.AllFlagsClearIff | openair1/SCHED/phy_procedures_lte_eNb.c:2527-2544 | For any counts all flags are clear at the end if and only if every user that is ever flagged is eligible. |
| Cba.DeliveredExactly | openair1/SCHED/phy_procedures_lte_eNb.c:2581-2609 | For every cell and user: its packet is delivered if and only if MAC runs, it is reached and accepted, and no earlier user was accepted in its counter; it raises a scheduling request if and only if it is accepted and one of those fails, is lost if and only if it is reached and not decoded, and ignored if and only if it is decoded with an unknown report. |
| Cba.AlwaysJudgedExactly | openair1/SCHED/phy_procedures_lte_eNb.c:2582-2609 | For any identifiers, with MAC: in all passes, whatever is flagged and decoded, every accepted user raises a scheduling request if and only if it collides with an earlier accepted user's identifier and is delivered if and only if not, exactly if among eligible users those of one counter are those of one identifier. |
| Cba.CollisionsJudgedRightly | openair2/LAYER2/MAC/config.c:541-563 | If each user with groups has the identifier MAC gives its counter, whatever its other indices hold, an accepted user raises a scheduling request if and only if an earlier user was accepted with its identifier, and is delivered if and only if none was, for every mixture of group counts. |
| Cba.GrantKeepsRuleExactly | openair1/PHY/LTE_TRANSPORT/dci_tools.c:8889-8890 | A grant sent for a group's representative, which overwrites its index 0, keeps that rule if and only if the representative does not count in counter 0 or the grant is for the first identifier; it loses it only if the representative has no more groups than its own number. |
| Cba.MacFlagsClearExactly | openair2/LAYER2/MAC/config.c:541-563 | Under the same rule all flags are clear at the end if and only if none was set on an ineligible user, for every mixture of group counts. |
| Cba.OnePacketPerGroup | openair1/SCHED/phy_procedures_lte_eNb.c:2581-2609 | With MAC each counter delivers exactly one packet if any is accepted in it; without MAC none is delivered. |
| Cba.CbaReceiver.ReceivePass | openair1/SCHED/phy_procedures_lte_eNb.c:2937-2944 | The loop over the users, with cleared counters, computes the pass. |
| Msg3Timing.Msg3GoesToEarliestUplink | openair1/SCHED/phy_procedures_lte_common.c:41-150 | The result is the earliest uplink subframe at distance 6 or more, in FDD and TDD 1, 3, 4, 5, across the wrap. |
| Msg3Timing.Msg3HandledExactly | openair1/SCHED/phy_procedures_lte_common.c:41-150 | A result is given in exactly the downlink subframes, except subframe 3 of configuration 5. |
| Msg3Timing.Msg3ProcessAgreesExactly | openair1/SCHED/phy_procedures_lte_common.c:191-275 | The prepared process is that of the allocated subframe if and only if the response is not in subframe 4 of configuration 1 or 4. |
| Msg3Timing.RetransmissionKeepsProcess | openair1/SCHED/phy_procedures_lte_common.c:152-189 | A retransmission is 8 (FDD) or 10 (TDD) subframes later, in the same process. |
| Msg3Timing.NoRetransmissionElsewhere | openair1/SCHED/phy_procedures_lte_common.c:152-189 | The slot is left at the one that has passed if and only if the mode is TDD other than 1, 3, 4 and 5. |
| FrameTiming.FddPidIsTimeModEight | openair1/PHY/LTE_TRANSPORT/dci_tools.c:6582-6597 | In FDD the process number is the time modulo 8, also across the wrap. |
| FrameTiming.TddPidsInOrder | openair1/PHY/LTE_TRANSPORT/dci_tools.c:6598-6680 | In TDD 1 to 5 the uplink subframes of a frame have the processes 0, 1, 2, .. in their order, in every frame. |
| Pucch.ResourcesTile | openair1/SCHED/phy_procedures_lte_common.c:666-714 | For any nondecreasing table, (subframe, element) to resource is a bijection onto [0, 2 N_3), with its inverse given. |
| Pucch.CollisionFreeExactly | openair1/SCHED/phy_procedures_lte_common.c:706-713 | The first k elements are free of collisions if and only if k is at most N_3. |
| Pucch.TablesFollowFormula | openair1/SCHED/phy_procedures_lte_common.c:666-671 | The six tables are the formula of section 10.1 of TS 36.213. |
| Pucch.UsersDoNotCollide | openair1/SCHED/phy_procedures_lte_eNb.c:1862-1973 | Users that were given different elements never answer on one resource, and one user's two resources differ. |
| Pucch.ResourceOfReport | openair1/SCHED/phy_procedures_lte_eNb.c:1862-1973 | The block in the m-th subframe of the terminal's set is answered on n1 plus its first element in FDD and on n1 plus the element's m-th resource in TDD; nothing is expected without a block or for the second subframe of configuration 1. |
| Occasions.SrExactly | openair1/SCHED/phy_procedures_lte_eNb.c:115-143 | An SR opportunity is exactly a time congruent to the offset, for all time; indices from 155 on have none. |
| Occasions.SrOncePerWindow | openair1/SCHED/phy_procedures_lte_eNb.c:115-143 | Every window of one period holds exactly one SR opportunity, across the wrap. |
| Occasions.SrsOncePerWindow | openair1/SCHED/phy_procedures_lte_eNb.c:2950-2953 | The same for SRS, in both frame types. |
| Occasions.LookupInjective | openair1/SCHED/phy_procedures_lte_common.c:1175-1273 | The offset is below the period, and no two indices share period and offset. |
| Occasions.TablesCover | openair1/SCHED/phy_procedures_lte_common.c:1175-1273 | Exactly which indices are valid. |
| Occasions.ComputeSrsPos | openair1/SCHED/phy_procedures_lte_common.c:1175-1273 | The chain of tests computes the table row; None where the program stops. |
| Mib.EveryFrameRecovered | openair1/SCHED/phy_procedures_lte_eNb.c:555-619 | In every run of frames from a multiple of four, the retained bytes and frame&3 give the frame number, the bandwidth and the PHICH configuration in force at the last multiple of four, read by the layout of section 6.2.2 of TS 36.331. |
| Mib.ReadPacked | openair1/SCHED/phy_procedures_lte_eNb.c:555-619 | Packing and reading are inverse for any frame of the four. |
| Mib.BandwidthExactly | openair1/SCHED/phy_procedures_lte_eNb.c:561-592 | The bandwidth comes back if and only if it is one of the six legal ones. |
| Mib.Pbch.FillPdu | openair1/SCHED/phy_procedures_lte_eNb.c:555-619 | The successive masks leave every earlier field as written; other frames keep the bytes. |
| BitString.NarrowIsValue | common/utils/asn1_conversions.h:70-86 | The 32-bit loop gives floor(big-endian / 2^unused), the ORs being disjoint sums. |
| BitString.WideIsValueExactly | common/utils/asn1_conversions.h:93-109 | The 64-bit loop gives it if and only if the first shifted byte is a nonnegative int. |
| BitString.FitsIntByValue | common/utils/asn1_conversions.h:93-109 | That is: one byte, or at most 39 bits and a value below 2^31. |
| BitString.WideFails | common/utils/asn1_conversions.h:93-109 | The 64-bit loop fails on every five whole bytes and on FF 00 00 00. |
| BitString.OrIsSum | common/utils/asn1_conversions.h:77-80 | OR of a multiple of 2^k and a number below 2^k is their sum. |
| BitString.PackRoundTrip | common/utils/asn1_conversions.h:35-111 | The value of a left-aligned packing is the number packed, for every width. |
| BitString.ToUint8 | common/utils/asn1_conversions.h:35-39 | The 8-bit reader gives the value. |
| BitString.ToUint16 | common/utils/asn1_conversions.h:46-63 | The 16-bit reader gives the value for both sizes. |
| BitString.ToUint32 | common/utils/asn1_conversions.h:70-86 | The 32-bit reader gives the value for all sizes. |
| BitString.ToUint64 | common/utils/asn1_conversions.h:93-109 | The 64-bit reader gives the value exactly under its condition. |
| NdiToggle.SuccessiveGrantsToggle | openair1/SCHED/phy_mac_stub.c:247-262 | In every run, successive grants of one process carry opposite indicators. |
| NdiToggle.OneTogglePerProcess | openair1/SCHED/phy_mac_stub.c:44-45 | The two tables act as one toggle per process that counts its grants; half of each is never written. |
| NdiToggle.SameParity | openair1/SCHED/phy_mac_stub.c:247-252 | Process and subframe number have the same parity. |
| NdiToggle.PidIsTimeModEight | openair1/SCHED/phy_mac_stub.c:247-252 | The process number is that of subframe2harq_pid in FDD, time modulo 8 across the wrap. |
| NdiToggle.Toggles.FillDci | openair1/SCHED/phy_mac_stub.c:326-341 | The routine returns the toggle and flips it. |

## Left out

- TDD acknowledgement in configurations 4 and 5 (M > 2, and 0xff used as an index in subframe 2), and 0, 2 and 6.
- Whether multiplexed TDD reports are right beyond `AckEndToEnd.MultiplexedReportRefuses`: the bits are overwritten before use.
- Two concurrent callers of the two-thread front end: the program has one.
- Write and read errors and end of file on the pipes, `fork`, and process exit: chunks are positive.
- Removal on several carriers: `mac_phy_remove_ue` returns at the first carrier that holds the user.
- Width of the 32-bit statistics counters, and of `int8_t` slot numbers: they are unbounded here.
- Random access in TDD as a whole run: only its timing is in `Msg3Timing`. A retransmission cut short by MAC is not part of `UlHarq.Msg3Ends`.
- BitString.Term: models the shift of an `int` as compiled with wrapping; the C standard leaves an overflowing signed shift undefined.
- AckEndToEnd.Run: subframes are processed one after the other, as in the default single thread; what two threads change is in `SubframeRing.ReadsRightExactly` and `AckEndToEnd.ThreadedReportsExactly`.
- UlHarq.FailureExactlyAtThreshold: takes reception and check of a subframe as finished before the next reception, as in the default single thread, because with two threads it is false; the condition is `UlHarq.NeverPassesExactly`.
- UlHarq.RandomAccessEnds: the same order of subframes.
- Ring entries of uplink subframes in TDD: nothing is written for them, and they are never read.
- Whether a report is processed is an input of each tick; when PUCCH is looked for is `AckEndToEnd.LookedForExactly`, scheduling request opportunities and PUSCH grants are not part of that run.
- AckEndToEnd.NoFalseAck: assumes the terminal sees every grant and the base station receives the bit that was sent; a lost grant is not modelled.
- DlHarq.RunConserves: the phy-test round reset, the statistics reset at Msg3 success and removal start a new epoch and are not events of a run; a grant rejected for having no resource blocks is not modelled.
- UlHarq.UlschUser.GeneratePhich: no new uplink grant takes the process over in the same subframe.
- The transport block size handed along with a CBA flag, and the HARQ round kept for CBA.
- The kind of CBA access reported is an input, also where the code leaves it uninitialised.
- Downlink control fields other than process number and new-data indicator, power control, CQI, timing advance, tracing arrays.
- Signal processing: demodulation, decoding, pilots, turbo coding, fronthaul.
