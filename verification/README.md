# Verified models of the CMP 100-210 tools

This project models, in Dafny, the parts of the CMP 100-210 tool repository whose correctness depends on
whole runs, on an adversarial environment or on every possible input, and proves what those parts promise.
Each model follows the code branch by branch. Where the code and a plausible reading of its purpose part, the
model follows the code, a lemma shows the difference on concrete inputs, and another gives the exact condition.

- **CUPTI bank rotation** (`CuptiBanks`, `CuptiProtocol`, `CuptiTheorems`, `CuptiSampling`, `CuptiRoundRobin`,
  `CuptiProgress`). Request hooks and one
  worker share a counter, a rotate flag, a mutex and two condition variables. Device state is a class whose
  methods are proved against functions; the protocol is a transition system with any number of threads, in
  which every CUPTI and CUDA call may answer anything. The theorems are about every interleaving.
- **Constant inventory** (`Words`, `ConstantInventory`). The block-local abstract interpreter over a Falcon listing,
  against a machine of sixteen 32-bit registers.
- **Stage captures** (`StageRecords`, `StageOrder`, `StageLanguage`, `StageMasks`, `StageParsing`). The validator's
  windows, pair scan and sets accept exactly one regular language; mask comparison; line conservation.
- **TOP decoder** (`Splitting`, `TopWords`, `TopDecoder`). The continuation-bit stream and its round trip.
- **Recovery coordinator** (`RecoveryLatch`, `Chains`, `CapabilityWalk`, `AerWalk`). The failed-boot latch over serial runs with
  crashes and reboots, the capability walk of section 6.7 of PCI Local Bus Specification 3.0, and the AER walk.
- **Settings transaction** (`NvmlArguments`, `NvmlTransaction`, `BootProfile`). Argument passes, the set / read back /
  roll back transaction, and the boot script's transaction over several GPUs.
- **Mask clearing and ordinals** (`WaterFilling`, `TpcRequest`, `OrdinalMap`).

`Basics` holds what several models share.

Results that show a limit of the code:

- That a second un-retried invocation under one boot id implies a pass of the earlier run is false in two ways.
  A retry in between may be the run that passed (`RetryInTheMiddle`), and a run that ends with a malformed boot id
  writes that text over the latched id (`scripts/cmp100-pcie-host:174-183`, `214-216`,
  `MalformedAnswerBreaksTheLatch`). `SecondInvocationNeedsAPass` says what holds of every history, and
  `EarlierRunPassedUnlessRetried` when the earlier run itself passed.
- The inventory folds `shr` on the unmasked integer, so an immediate wider than 32 bits (or negative) can be
  reported wrongly. `SoundExactlyWhenShiftsFit` gives the exact condition for every listing.
- The boot script can fail and leave a GPU at offset 138 although no rollback and no reset failed: the tool exits
  non-zero when its report cannot be printed or NVML does not shut down, which comes after the writes
  (`tools/cmp100-nvml-clock-v2.rs:42`, `54`), and the GPU is listed for cleanup only after a zero exit
  (`scripts/cmp100-hbm-877-boot:80-81`). `Boot` gives the exact condition.
- The capability walk's cap of 48 steps can hide a PCIe entry when pointers lie below 0x40, and the AER walk's cap of
  256 steps an AER entry even when all pointers lie in extended space, which turns the check for new uncorrectable
  errors off (`scripts/cmp100-pcie-host:206-209`). Each walk finds exactly what is within its cap.
- Mask comparison is not transitive when values are missing. `ConstantExactlyWhenUniform` gives the exact condition,
  which the missing-register check establishes.
- A visibility list that starts with a comma is refused, because the first token does not start the text.

Assumptions, as parameters or guards of the models: the CUPTI clock is monotone (only for the window theorems);
getters of the NVML library report the true setting and the limits it reports do not change, while setters may fail
or write any value; guest reboots
give fresh boot ids; control enters a listing only by fall-through, collected direct targets or call returns, where
any branch may fall through and no return or exit does (exactness of the inventory is relative to this machine),
and an instruction the analysis does not know changes at most its first register operand; qsort_r is given by a
sort with the same contract.

## Model

| member | source | states |
|---|---|---|
| `CuptiBanks.SelectFromOk` | patches/llama.cpp/0001-server-add-optional-legacy-CUPTI-metric-collector.patch:513-527 | First selection: the device is ready with exactly its active bank enabled, or not ready with none |
| `CuptiBanks.SelectsTheFirst` | patches/llama.cpp/0001-server-add-optional-legacy-CUPTI-metric-collector.patch:513-527 | The first selection takes the first bank that is available and starts, at that start timestamp; the device is ready exactly if there is one |
| `CuptiBanks.StartIsOk` | patches/llama.cpp/0001-server-add-optional-legacy-CUPTI-metric-collector.patch:513-527 | Every way a device can start satisfies the one-bank rule |
| `CuptiBanks.SampleKeeps` | patches/llama.cpp/0001-server-add-optional-legacy-CUPTI-metric-collector.patch:827-845 | A sampling pass, failing or not, changes no active index and no enabled flag, and takes no disabled mark or lost readiness back |
| `CuptiBanks.CloseLeavesNone` | patches/llama.cpp/0001-server-add-optional-legacy-CUPTI-metric-collector.patch:503-511 | The tail read keeps the rule and switching the active bank off leaves no bank on |
| `CuptiBanks.TryKeeps` | patches/llama.cpp/0001-server-add-optional-legacy-CUPTI-metric-collector.patch:789-800 | One candidate: either the device is ready with that single bank on, or still between banks with the same index |
| `CuptiBanks.PickKeeps` | patches/llama.cpp/0001-server-add-optional-legacy-CUPTI-metric-collector.patch:788-805 | The candidate loop ends with exactly one bank on, or none and not ready |
| `CuptiBanks.RotateKeeps` | patches/llama.cpp/0001-server-add-optional-legacy-CUPTI-metric-collector.patch:764-811 | Rotating a device under any CUPTI and CUDA answers keeps the one-bank rule, and no disabled mark or lost readiness comes back |
| `CuptiBanks.RotationIsRoundRobin` | patches/llama.cpp/0001-server-add-optional-legacy-CUPTI-metric-collector.patch:788-800 | With enables succeeding, a rotation moves to the next eligible bank in ring order and leaves the eligible set alone |
| `CuptiBanks.PickIsNext` | patches/llama.cpp/0001-server-add-optional-legacy-CUPTI-metric-collector.patch:788-800 | The candidate loop picks the first eligible bank at or after its offset |
| `CuptiBanks.EveryEligibleBankGetsATurn` | patches/llama.cpp/0001-server-add-optional-legacy-CUPTI-metric-collector.patch:788-800 | On the ring of eligible flags every eligible place is reached within its distance |
| `CuptiBanks.RotationsWalk` | patches/llama.cpp/0001-server-add-optional-legacy-CUPTI-metric-collector.patch:770-805 | After n rotations of a device with pushes and enables succeeding, the active index has walked n places around the eligible banks, and the device is still ready |
| `CuptiBanks.EveryEligibleBankIsRotatedIn` | patches/llama.cpp/0001-server-add-optional-legacy-CUPTI-metric-collector.patch:770-805 | Every eligible bank of the device is the active, enabled one after at most as many rotations as it lies ahead |
| `CuptiBanks.WindowsAreDisjoint` | patches/llama.cpp/0001-server-add-optional-legacy-CUPTI-metric-collector.patch:657-698 | Two sample windows of a device history never overlap as half-open intervals |
| `CuptiBanks.WindowInsideOnePeriod` | patches/llama.cpp/0001-server-add-optional-legacy-CUPTI-metric-collector.patch:492-511 | Every window lies inside one period during which its bank stayed enabled |
| `CuptiBanks.SelectTimed` | patches/llama.cpp/0001-server-add-optional-legacy-CUPTI-metric-collector.patch:492-527 | The history a first selection leaves is well timed at some clock value |
| `CuptiBanks.DeviceState.EnableAt` | patches/llama.cpp/0001-server-add-optional-legacy-CUPTI-metric-collector.patch:485-501 | enable_bank in place: only the chosen bank changes, flag, timestamp and failure as the answer dictates |
| `CuptiBanks.DeviceState.SelectFirstBank` | patches/llama.cpp/0001-server-add-optional-legacy-CUPTI-metric-collector.patch:513-527 | select_first_bank in place is the first-selection function, whose result is proved to obey the one-bank rule |
| `CuptiBanks.DeviceState.ReadTail` | patches/llama.cpp/0001-server-add-optional-legacy-CUPTI-metric-collector.patch:774-779 | The tail read in place consumes the interval up to the answer, only on an enabled bank in use |
| `CuptiBanks.DeviceState.DisableActive` | patches/llama.cpp/0001-server-add-optional-legacy-CUPTI-metric-collector.patch:503-511 | disable_bank in place: the flag drops whatever CUPTI answers |
| `CuptiBanks.DeviceState.Try` | patches/llama.cpp/0001-server-add-optional-legacy-CUPTI-metric-collector.patch:789-800 | One turn of the candidate loop in place |
| `CuptiBanks.DeviceState.Rotate` | patches/llama.cpp/0001-server-add-optional-legacy-CUPTI-metric-collector.patch:770-805 | A device rotation in place is the rotation function, about which RotateKeeps and RotationIsRoundRobin speak |
| `CuptiProtocol.InitHolds` | patches/llama.cpp/0001-server-add-optional-legacy-CUPTI-metric-collector.patch:813-823 | A started collector satisfies the protocol invariant |
| `CuptiProtocol.StepKeepsInv` | patches/llama.cpp/0001-server-add-optional-legacy-CUPTI-metric-collector.patch:764-999 | Every enabled step of every thread keeps the invariant: mutex ownership, counter equals requests in flight, flag, waiters, one enabled bank |
| `CuptiProtocol.BeginStep` | patches/llama.cpp/0001-server-add-optional-legacy-CUPTI-metric-collector.patch:972-987 | The steps of request_begin before its increment keep the invariant |
| `CuptiProtocol.CountStep` | patches/llama.cpp/0001-server-add-optional-legacy-CUPTI-metric-collector.patch:985-986 | The increment keeps counter and requests in flight equal |
| `CuptiProtocol.EndStoreStep` | patches/llama.cpp/0001-server-add-optional-legacy-CUPTI-metric-collector.patch:989-996 | The decrement of request_end keeps counter and requests in flight equal |
| `CuptiProtocol.EndStep` | patches/llama.cpp/0001-server-add-optional-legacy-CUPTI-metric-collector.patch:989-999 | The other steps of request_end keep the invariant; the last ender owes the rotation flag |
| `CuptiProtocol.SampleStep` | patches/llama.cpp/0001-server-add-optional-legacy-CUPTI-metric-collector.patch:825-851 | A sampling pass of the worker keeps the invariant |
| `CuptiProtocol.RotationStep` | patches/llama.cpp/0001-server-add-optional-legacy-CUPTI-metric-collector.patch:770-805 | Each micro-step of a rotation keeps the invariant |
| `CuptiProtocol.AnnounceStep` | patches/llama.cpp/0001-server-add-optional-legacy-CUPTI-metric-collector.patch:806-811 | The wake-up after a rotation keeps the invariant |
| `CuptiTheorems.RunKeepsInv` | patches/llama.cpp/0001-server-add-optional-legacy-CUPTI-metric-collector.patch:764-999 | Every state of every interleaving satisfies the invariant |
| `CuptiTheorems.NoBankChangesDuringARequest` | patches/llama.cpp/0001-server-add-optional-legacy-CUPTI-metric-collector.patch:764-811 | In every interleaving, between the increment and the decrement of any request no active index and no enabled flag of any device changes |
| `CuptiTheorems.BusyStepKeepsSetup` | patches/llama.cpp/0001-server-add-optional-legacy-CUPTI-metric-collector.patch:764-769 | No step taken while a request is counted touches an active index or an enabled flag |
| `CuptiTheorems.OneEnabledBank` | patches/llama.cpp/0001-server-add-optional-legacy-CUPTI-metric-collector.patch:485-527 | In every reachable state a bank is enabled exactly when its device is ready and it is the active one, except on the device being switched, and without exception while a request runs |
| `CuptiTheorems.DegradationIsOneWay` | patches/llama.cpp/0001-server-add-optional-legacy-CUPTI-metric-collector.patch:836-843 | Over any stretch of a run disabled marks only grow and readiness never returns |
| `CuptiTheorems.IdleGap` | patches/llama.cpp/0001-server-add-optional-legacy-CUPTI-metric-collector.patch:813-851 | In an idle gap after a busy state either a rotation is owed and none has started, or exactly one has started and none is owed |
| `CuptiTheorems.ExactlyOneRotationBetweenBusyPeriods` | patches/llama.cpp/0001-server-add-optional-legacy-CUPTI-metric-collector.patch:813-851 | Exactly one rotation starts between two consecutive busy periods and it is over before the second |
| `CuptiTheorems.NoRotationBeforeTheFirstRequest` | patches/llama.cpp/0001-server-add-optional-legacy-CUPTI-metric-collector.patch:813-851 | No rotation starts before the first request |
| `CuptiTheorems.RunKeepsTimed` | patches/llama.cpp/0001-server-add-optional-legacy-CUPTI-metric-collector.patch:657-698 | With a monotone CUPTI clock every device history of every run is well timed |
| `CuptiTheorems.SampleWindowInsideOnePeriod` | patches/llama.cpp/0001-server-add-optional-legacy-CUPTI-metric-collector.patch:492-511 | With a monotone CUPTI clock every sample window of every run lies inside one period during which its bank stayed enabled |
| `CuptiTheorems.SampleWindowsAreDisjoint` | patches/llama.cpp/0001-server-add-optional-legacy-CUPTI-metric-collector.patch:657-698 | With a monotone CUPTI clock any two sample windows of a device, across banks and failures, are disjoint, and each lies in one enabled period |
| `CuptiTheorems.NoWaiterIsStranded` | patches/llama.cpp/0001-server-add-optional-legacy-CUPTI-metric-collector.patch:972-987 | A waiting begin always has a releaser: flag clear and notified, worker switching, counter 0 with a rotation owed, or a counted request yet to end |
| `CuptiProgress.PlanDescends` | patches/llama.cpp/0001-server-add-optional-legacy-CUPTI-metric-collector.patch:764-999 | From any invariant state a concrete enabled step brings a waiting request closer to admission in a well-founded rank |
| `CuptiProgress.EveryWaiterCanBeAdmitted` | patches/llama.cpp/0001-server-add-optional-legacy-CUPTI-metric-collector.patch:972-987 | From any state of any run and for any environment there is a continuation without new requests in which the waiter is counted |
| `CuptiProgress.SmallStepsMakeARotation` | patches/llama.cpp/0001-server-add-optional-legacy-CUPTI-metric-collector.patch:770-805 | The worker's micro-steps compose to the one-device rotation function, with or without a context, and touch nothing else |
| `CuptiProgress.SmallStepsMakeASamplingPass` | patches/llama.cpp/0001-server-add-optional-legacy-CUPTI-metric-collector.patch:825-845 | A worker that wakes while a request is counted samples every device once, whatever each read answers |
| `CuptiSampling.GivenUpAtTheThird` | patches/llama.cpp/0001-server-add-optional-legacy-CUPTI-metric-collector.patch:827-845 | Sampling gives a bank up and asks for a rotation exactly at the third consecutive read of it that publishes nothing, in terms of the answers alone |
| `CuptiSampling.SamplesCount` | patches/llama.cpp/0001-server-add-optional-legacy-CUPTI-metric-collector.patch:827-845 | After n reads the bank is in use unless some read was such a third one, its count is the silent reads in a row and its timestamp the latest consumed |
| `CuptiSampling.GivenUpExactlyWhen` | patches/llama.cpp/0001-server-add-optional-legacy-CUPTI-metric-collector.patch:836-843 | In every run a bank becomes disabled exactly at the third silent read of it in a row or when a rotation cannot enable it |
| `CuptiSampling.SamplingAsksExactlyWhen` | patches/llama.cpp/0001-server-add-optional-legacy-CUPTI-metric-collector.patch:836-843 | In every run a sampling step raises the rotate flag exactly at such a third read |
| `CuptiSampling.ThreeInARow` | patches/llama.cpp/0001-server-add-optional-legacy-CUPTI-metric-collector.patch:836-843 | A third silent read comes after two others of the same bank with no read of it in between |
| `CuptiSampling.FailuresAreTheStreak` | patches/llama.cpp/0001-server-add-optional-legacy-CUPTI-metric-collector.patch:832-837 | In every run the failure count is the number of silent reads in a row |
| `CuptiSampling.RunStaysUpToDate` | patches/llama.cpp/0001-server-add-optional-legacy-CUPTI-metric-collector.patch:492-500 | In every run an enabled bank was last read or opened at the latest timestamp of the history |
| `CuptiSampling.HistoryIsWhatWasAnswered` | patches/llama.cpp/0001-server-add-optional-legacy-CUPTI-metric-collector.patch:657-698 | In every run the history of a device grows by exactly the window of each new timestamp of a read in use, the tail read included, the end of a period and the next opening |
| `CuptiRoundRobin.RunRotatesRoundRobin` | patches/llama.cpp/0001-server-add-optional-legacy-CUPTI-metric-collector.patch:770-805 | In every run, over a stretch in which the eligible banks of a ready device stay what they are, the active index walks around them one place per rotation of the device, and the device stays ready |
| `CuptiRoundRobin.EveryEligibleBankIsVisited` | patches/llama.cpp/0001-server-add-optional-legacy-CUPTI-metric-collector.patch:770-805 | Over such a stretch every eligible bank is active and enabled at some moment within as many rotations as it lies ahead |
| `Words.ShrAgreesExactly` | tools/inventory_gr_mmio_calls.py:97-100 | Shifting an unbounded integer right and masking agrees with shifting the masked word exactly when the bits above 32 vanish modulo the shift |
| `ConstantInventory.BitsOfLow` | tools/inventory_gr_mmio_calls.py:91-100 | Masking after a bitwise operation equals operating on masked operands |
| `ConstantInventory.BitsAreBitwise` | tools/inventory_gr_mmio_calls.py:94-96 | Bit k of a folded and, or, xor is set exactly when both, one, or exactly one of the operands has it |
| `ConstantInventory.FoldPredictsAlu` | tools/inventory_gr_mmio_calls.py:91-100 | Constant folding equals the machine operation on 32-bit words, for shr exactly when no bit above 32 is shifted down |
| `ConstantInventory.Inventory` | tools/inventory_gr_mmio_calls.py:38-101 | The loop over the listing, with its target collection, kills and call records, computes the block-local analysis function |
| `ConstantInventory.TransferIsSound` | tools/inventory_gr_mmio_calls.py:71-100 | One instruction: constants that describe the registers before describe them after |
| `ConstantInventory.ConstantsAreSound` | tools/inventory_gr_mmio_calls.py:38-101 | On every concrete execution, at every instruction, each constant the analysis holds equals the register, as long as the folded shifts above it fit |
| `ConstantInventory.ResultIsWrittenExactly` | tools/inventory_gr_mmio_calls.py:71-100 | A folded constant is the machine word if and only if a folded right shift fits |
| `ConstantInventory.SoundExactlyWhenShiftsFit` | tools/inventory_gr_mmio_calls.py:38-101 | For every listing: all constants are right on all executions if and only if every folded right shift that is executed and not forgotten at a join fits |
| `ConstantInventory.KnownExactlyWhenDerivable` | tools/inventory_gr_mmio_calls.py:54-100 | A register is known at an instruction exactly when, going back in its block, its last write puts down a constant: nothing is kept too long and nothing dropped without need |
| `ConstantInventory.CallsAreRecorded` | tools/inventory_gr_mmio_calls.py:58-67 | A call is recorded exactly when its target is a known helper address, with exactly the arguments that are derivable |
| `ConstantInventory.EffectsAgree` | tools/inventory_gr_mmio_calls.py:41-71 | Which operations jump, call, leave, only read or write |
| `ConstantInventory.TargetsAreNamed` | tools/inventory_gr_mmio_calls.py:39-43 | The join addresses are exactly those some branch or call names last in hexadecimal |
| `ConstantInventory.ArgsOfAppend` | tools/inventory_gr_mmio_calls.py:57 | Operands are filtered piece by piece, in order |
| `ConstantInventory.ArgsOfOne` | tools/inventory_gr_mmio_calls.py:57 | Exactly the width tokens are dropped |
| `ConstantInventory.CallIsConfirmed` | tools/inventory_gr_mmio_calls.py:58-67 | A helper call the analysis sees on an execution is in the inventory and the machine confirms its record |
| `ConstantInventory.RecordsAreTrue` | tools/inventory_gr_mmio_calls.py:58-67 | Every record the inventory returns belongs to a call of the listing, and on every execution that reaches it the helper and each reported r10..r14 constant equal the machine state |
| `ConstantInventory.RecordsComeFromCalls` | tools/inventory_gr_mmio_calls.py:58-67 | A record is reported if and only if some call in the listing to a helper produces it |
| `ConstantInventory.ShiftedImmediateMustFit` | tools/inventory_gr_mmio_calls.py:84-100 | For every such listing the analysis is sound if and only if the bits above 32 vanish modulo the shift |
| `ConstantInventory.ReportIsRightExactlyWhenShiftFits` | tools/inventory_gr_mmio_calls.py:84-100 | For every shift of an immediate followed by a helper call, all executions confirm the record if and only if the immediate fits |
| `StageRecords.SortFinds` | tools/decode_gv100_stages.py:464-472 | Sorting by sequence number yields the one increasing arrangement |
| `StageOrder.CheckOrder` | tools/decode_gv100_stages.py:415-511 | The presence, window, pair-scan and order checks return the error list, initial pair, pairs and leftovers of the specification |
| `StageOrder.CheckPresence` | tools/decode_gv100_stages.py:415-425 | Missing and duplicate errors per non-reset stage, and the records found once |
| `StageOrder.CheckWindow` | tools/decode_gv100_stages.py:432-460 | The initial reset pair is found when the window holds exactly one adjacent mask and reset |
| `StageOrder.ScanPairs` | tools/decode_gv100_stages.py:473-488 | The cursor loop over the trailing reset records |
| `StageLanguage.AcceptedIsSpelled` | tools/decode_gv100_stages.py:415-511 | A contiguous run without errors spells the core sequence followed by reset pairs, every pair adjacent |
| `StageLanguage.SpelledIsAccepted` | tools/decode_gv100_stages.py:43-56 | A contiguous run that spells that language raises no error, wherever unknown names stand outside pairs |
| `StageLanguage.ChecksAcceptTheLanguage` | tools/decode_gv100_stages.py:415-511 | On contiguous runs no error is raised if and only if the run is in the language |
| `StageLanguage.ScanIsExact` | tools/decode_gv100_stages.py:473-488 | The pair scan leaves nothing over exactly when every even place starts a pair |
| `StageMasks.CollectValues` | tools/decode_gv100_stages.py:176-186 | The loop returns the kept value of each register and the list of registers read again |
| `StageMasks.FirstValueIsKept` | tools/decode_gv100_stages.py:176-186 | The value kept for a register is the first one read |
| `StageMasks.DuplicatesAreLaterReadings` | tools/decode_gv100_stages.py:176-186 | A register is a duplicate if and only if some reading of it was not the first, and kept and repeated readings add up to all |
| `StageMasks.ChangedSlots` | tools/decode_gv100_stages.py:189-225 | A slot is listed, in order, exactly when both values are present and differ |
| `StageMasks.CompareTwo` | tools/decode_gv100_stages.py:201-221 | The report of two stages names them, lists exactly the changed slots of each family and is marked changed exactly when there is one |
| `StageMasks.CompareMasks` | tools/decode_gv100_stages.py:189-225 | One report per neighbouring pair in sequence order, and a change overall exactly when some pair differs |
| `StageMasks.NoChangeMeansConstant` | tools/decode_gv100_stages.py:189-225 | When all physical values are present, no reported change if and only if every two stages agree in all slots |
| `StageMasks.ConstantExactlyWhenUniform` | tools/decode_gv100_stages.py:189-225 | All stages agree on all masks if and only if no transition reports a change and every mask was observed by all stages or by none |
| `StageMasks.CheckedIsComplete` | tools/decode_gv100_stages.py:317-343 | A stage that passes the missing-register check has every physical value |
| `StageMasks.PhysicalRegsAre` | tools/decode_gv100_stages.py:37-41 | The registers every stage must have: three of the GPU and raw, ctrl and status of each slot |
| `StageMasks.SlotRegisters` | tools/decode_gv100_stages.py:34-36 | Each family has six consecutive words from its base, one per slot |
| `StageMasks.RegistersDiffer` | tools/decode_gv100_stages.py:34-36 | No two slots share a register |
| `StageMasks.MissingValueHidesAChange` | tools/decode_gv100_stages.py:189-225 | Without that check two different stages around an empty one report no change |
| `StageMasks.DisagreementExists` | tools/decode_gv100_stages.py:189-225 | Such stages exist |
| `StageParsing.AttachCounts` | tools/decode_gv100_stages.py:640-647 | Attaching a value adds exactly one attached value |
| `StageParsing.AddConserves` | tools/decode_gv100_stages.py:632-669 | One line keeps the account of a run balanced |
| `StageParsing.ValueGoesToItsStage` | tools/decode_gv100_stages.py:640-651 | A value goes to a stage exactly when one stage so far has its sequence number, and to the orphans otherwise |
| `StageParsing.ReplayConserves` | tools/decode_gv100_stages.py:603-683 | raw_lines is 1 plus stages, attached values, orphans, missed and non-BEGIN unparsed entries, plus 1 for END |
| `StageParsing.ReplayHoldsStages` | tools/decode_gv100_stages.py:633-639 | The stages of a run are the well-formed STAGE lines of its block, in order, and its missed counters the MISSED lines |
| `StageParsing.ReplayHoldsValues` | tools/decode_gv100_stages.py:640-651 | Every well-formed VALUE line is in exactly one place: an orphan, or under a stage of its own sequence number |
| `StageParsing.BlocksAreTheOwnedLines` | tools/decode_gv100_stages.py:610-632 | The blocks of the runs, put together, are exactly the lines that belong to a run, each from BEGIN to END or to the next BEGIN |
| `StageParsing.ParseCapture` | tools/decode_gv100_stages.py:603-683 | One run per block of lines, in order, each with what its lines say and all of them accounted for; the selected run is the last complete one |
| `RecoveryLatch.StepKeepsInv` | scripts/cmp100-pcie-host:124-220 | Every step, crash, exception and reboot keeps the latch invariant |
| `RecoveryLatch.HistoryKeepsInv` | scripts/cmp100-pcie-host:124-220 | Every state of every serial history satisfies it, malformed answers included |
| `RecoveryLatch.SecondInvocationNeedsAPass` | scripts/cmp100-pcie-host:184-217 | In every history: if the helper is started without retry under a boot id it was started under before, the last event is the pass of the run that last started it under that id, or the recording of a malformed id |
| `RecoveryLatch.EarlierRunPassedUnlessRetried` | scripts/cmp100-pcie-host:184-217 | Of two such invocations the earlier run itself wrote pass if and only if no retry and no malformed record follows it at once |
| `RecoveryLatch.CheckRunsOnlyLook` | scripts/cmp100-pcie-host:170-171 | In every history a run started with --check never writes the state file and never starts the helper |
| `RecoveryLatch.SettledRunsOnlyLook` | scripts/cmp100-pcie-host:166-171 | A run that only checks, or sees settled links with no failed boot on record, is over at its inspection and changes nothing |
| `RecoveryLatch.OtherRunsGoOn` | scripts/cmp100-pcie-host:166-176 | Every other run goes on to ask the guest, also with settled links after a failed boot |
| `RecoveryLatch.LatchedRunStops` | scripts/cmp100-pcie-host:184-186 | A plain run under the recorded failed id stops at the check and changes nothing |
| `RecoveryLatch.RebootOpensTheLatch` | scripts/cmp100-pcie-host:184-201 | After a reboot a plain run starts the helper even though the old boot failed |
| `RecoveryLatch.CrashKeepsTheRecord` | scripts/cmp100-pcie-host:117-121 | A crash, or a failure before a boot id is known, ends the run and leaves the record as it is |
| `RecoveryLatch.MalformedRunUnlatches` | scripts/cmp100-pcie-host:174-183 | A run whose guest answers garbage until the deadline replaces the latched id by the garbage |
| `RecoveryLatch.RunInvokes` | scripts/cmp100-pcie-host:184-201 | A run starts the helper whenever the recorded failed id is not the one of the guest, or on a retry |
| `RecoveryLatch.MalformedAnswerBreaksTheLatch` | scripts/cmp100-pcie-host:174-217 | From any state with an open latch that run followed by a plain one invokes twice without pass or retry |
| `RecoveryLatch.RetryInTheMiddle` | scripts/cmp100-pcie-host:184-217 | A failing run, a passing retry and a plain run under one boot id: first and last start the helper, and the first never passed |
| `CapabilityWalk.Walk` | scripts/cmp100-pcie-host:52-62 | On any bytes the walk ends inside configuration space and finds exactly the first PCIe entry among the first 48 |
| `Chains.NothingLeft` | scripts/cmp100-pcie-host:52-62 | Stopping at 0 or at a repeated entry misses nothing |
| `Chains.FirstHitIsEarly` | scripts/cmp100-pcie-host:52-62 | The pigeonhole: when only n addresses are possible a first hit is among the first n entries |
| `CapabilityWalk.CapNeverBinds` | scripts/cmp100-pcie-host:52-62 | With all pointers at least 0x40 the first PCIe entry is among the first 48 |
| `CapabilityWalk.HighPointersSuffice` | scripts/cmp100-pcie-host:52-62 | Then the walk finds PCIe if and only if it is on the chain |
| `CapabilityWalk.LowPointersHideIt` | scripts/cmp100-pcie-host:52-62 | With pointers below 0x40 there is a chain whose PCIe entry the cap hides |
| `AerWalk.Walk` | scripts/cmp100-pcie-host:82-93 | On any contents the walk ends; on a full space it reads the registers of the first AER capability exactly when that is among the first 256 entries, and None exactly when none is |
| `AerWalk.CapNeverBinds` | scripts/cmp100-pcie-host:82-93 | With capabilities at multiples of 16 from 0x100 up the first AER entry is among the first 240 |
| `AerWalk.WideApartSuffices` | scripts/cmp100-pcie-host:82-93 | Then the walk finds AER if and only if it is on the chain |
| `AerWalk.DenseListHidesIt` | scripts/cmp100-pcie-host:82-93 | A chain inside extended space whose AER entry the cap of 256 hides |
| `AerWalk.DenseExists` | scripts/cmp100-pcie-host:82-93 | Such a space exists |
| `NvmlArguments.LookUp` | tools/cmp100-nvml-clock-v2.rs:31 | The lookup loop computes the value, absence, or duplicate and missing-value errors, and a value never starts with two dashes |
| `NvmlArguments.CheckFlags` | tools/cmp100-nvml-clock-v2.rs:32 | The flag pass accepts exactly what one left-to-right parse accepts |
| `NvmlArguments.LookupsReadTheParse` | tools/cmp100-nvml-clock-v2.rs:31-32 | Once both passes accept, options are unique, no value looks like an option, and each lookup is the parsed value |
| `NvmlArguments.ClearParseIsReadable` | tools/cmp100-nvml-clock-v2.rs:31-32 | Conversely a parse with unique options and plain values is read by every lookup |
| `NvmlArguments.TwoPassesAreOneParse` | tools/cmp100-nvml-clock-v2.rs:31-51 | Two-pass acceptance if and only if one clear parse; values agree, and a switch such as --apply is present exactly when it is a flag of the parse, never an option's value |
| `NvmlTransaction.AllBack` | tools/cmp100-nvml-clock-v2.rs:39 | Planned settings restored and the rest untouched is the plan-time state |
| `NvmlTransaction.Host.One` | tools/cmp100-nvml-clock-v2.rs:38 | Set and read back: one call with the requested value, success means that value is in force, no other setting moved, and without trouble from the library it succeeds |
| `NvmlTransaction.Host.Rollback` | tools/cmp100-nvml-clock-v2.rs:39 | Restoration in reverse, call by call: ok means every listed setting has its plan-time value |
| `NvmlTransaction.Host.Exec` | tools/cmp100-nvml-clock-v2.rs:42 | Success means every requested value in force, rollback=ok means the state equals the one at plan time including the failed write; the setter calls are the writes up to the failing one and their undoing in reverse, none in a dry run; without trouble it applies |
| `NvmlTransaction.Host.WaitForClock` | tools/cmp100-nvml-clock-v2.rs:41 | Success exactly when one of 21 readings is the profile clock and none before it failed |
| `NvmlTransaction.Host.RollbackAll` | tools/cmp100-nvml-clock-v2.rs:39-42 | The failing change is restored together with the done ones |
| `NvmlTransaction.Host.PlanChange` | tools/cmp100-nvml-clock-v2.rs:36-37 | The plan records the value read before any write, and is made exactly for requests within the limits, or offsets with the bypass |
| `NvmlTransaction.Host.PlanAll` | tools/cmp100-nvml-clock-v2.rs:36-37 | A plan lists every requested change with its current value, exactly when all are allowed |
| `NvmlTransaction.Host.Command` | tools/cmp100-nvml-clock-v2.rs:36-42 | The whole command is all-or-restored on one GPU, touches no other GPU or setting, and never applies a value outside the limits |
| `NvmlTransaction.Host.Tune` | tools/cmp100-nvml-clock-v2.rs:49 | tune is all-or-restored, sets milliwatts within the constraints whatever the bypass, offsets outside their range only with it, and succeeds exactly on allowed requests when nothing goes wrong |
| `NvmlTransaction.Host.Profile` | tools/cmp100-nvml-clock-v2.rs:50 | profile puts offset 138 in force or restores, and succeeds when nothing goes wrong |
| `NvmlTransaction.Host.Reset` | tools/cmp100-nvml-clock-v2.rs:51 | reset puts 0 and the default power within constraints in force or restores, and succeeds when nothing goes wrong |
| `BootProfile.CheckAll` | scripts/cmp100-hbm-877-boot:63-75 | The gates change nothing and pass only distinct, well-formed, known GPUs, and all of those when nothing goes wrong |
| `BootProfile.ApplyOne` | scripts/cmp100-hbm-877-boot:79-85 | One GPU: profile then power. A failure before listing whose rollback was complete left the GPU unchanged, unless the invocation applied the profile and then failed to finish, which leaves exactly the offset changed |
| `BootProfile.ApplyAll` | scripts/cmp100-hbm-877-boot:79-85 | The loop touches only GPUs on the applied list and at most one stranded GPU, when rollbacks succeeded |
| `BootProfile.VerifyAll` | scripts/cmp100-hbm-877-boot:87-109 | Success means each GPU was read at 138 and 877 |
| `BootProfile.Cleanup` | scripts/cmp100-hbm-877-boot:27-43 | Success means each applied GPU has offset 0 and, when power was configured, its default limit |
| `BootProfile.Boot` | scripts/cmp100-hbm-877-boot:27-112 | PASS means all GPUs at 138 and 877. After a failure with rollbacks and resets successful every GPU but a stranded one has its initial or its reset settings, and all have if and only if none is stranded or the stranded one had offset 138 to begin with. When nothing goes wrong it passes exactly for distinct, well-formed, known GPUs within their power constraints |
| `Splitting.SplitIsUnique` | tools/decode_gv100_top.py:140-172 | A stream has exactly one split after its closing words, the one the loop makes |
| `TopWords.ReadingsFit` | tools/decode_gv100_top.py:151-166 | Every field read from a word lies within its width |
| `TopWords.MakeReads` | tools/decode_gv100_top.py:151-169 | Every reading within its widths is read back from the word made for it, with the continuation bit as asked |
| `TopDecoder.Decode` | tools/decode_gv100_top.py:127-182 | The decoding loop, for a stream of any length, computes the specified report |
| `TopDecoder.DecodeTopWords` | tools/decode_gv100_top.py:127-134 | Rejected exactly unless 64 values, each an unsigned 32-bit integer |
| `TopDecoder.LastIsLast` | tools/decode_gv100_top.py:150-166 | The reference chooses the last word that carries a field |
| `TopDecoder.FoldIsLastWrites` | tools/decode_gv100_top.py:150-166 | Folding the words of a record gives each field the value of its last carrier, or its default |
| `TopDecoder.DevicesAreTheSplit` | tools/decode_gv100_top.py:139-182 | Devices are the live words split after each word with bit 31 clear, each group folded last-write-wins; the rest is the incomplete record |
| `TopDecoder.EveryIndexOnce` | tools/decode_gv100_top.py:139-182 | Each index lies in exactly one device, the incomplete record or the invalid list, once, and no other index anywhere |
| `TopDecoder.InvalidWordsDoNotMatter` | tools/decode_gv100_top.py:140-144 | Deleting NOT_VALID words changes the report only in positions |
| `TopDecoder.RoundTrip` | tools/decode_gv100_top.py:94-182 | Encoding any devices within field widths and decoding gives them back |
| `TopDecoder.ReencodingKeepsDevices` | tools/decode_gv100_top.py:94-182 | Whatever is decoded can be encoded, and decodes to the same devices |
| `TopDecoder.IdentitiesSurvive` | tools/decode_gv100_top.py:94-107 | The engines, instances and warnings a stream names survive deleting its NOT_VALID words and encoding its devices afresh |
| `TopDecoder.TableIsCodes` | tools/decode_gv100_top.py:38-56 | The table of type codes and the naming of engines by code are inverse to each other, on exactly the seventeen codes |
| `TopDecoder.LastTypeWordNames` | tools/decode_gv100_top.py:38-56 | A device is named by the last type word of its record, with the instance of the table, or of its data words where the table fixes none, and a warning exactly when a fixed instance meets a non-zero one |
| `TopDecoder.RoundTripAmongInvalidWords` | tools/decode_gv100_top.py:140-182 | The round trip survives NOT_VALID words anywhere |
| `WaterFilling.FirstMax` | tools/analyze_v100_tpc_request.py:27-28 | The chosen slot has the most bits and is the first such slot |
| `WaterFilling.GreedySum` | tools/analyze_v100_tpc_request.py:26-31 | Each round removes exactly one |
| `WaterFilling.GreedyWaterFills` | tools/analyze_v100_tpc_request.py:26-31 | After any number of rounds there is a level: slots at or below it untouched, the others at it or one above, those at it first |
| `WaterFilling.GreedyIsTheWaterFill` | tools/analyze_v100_tpc_request.py:26-31 | A result is the greedy one if and only if it is water-filled and removes the requested number |
| `WaterFilling.GreedyIsMostEven` | tools/analyze_v100_tpc_request.py:26-31 | No other removal of as many bits leaves less above any threshold |
| `WaterFilling.GreedyMinimisesTheLargest` | tools/analyze_v100_tpc_request.py:26-31 | The largest remaining count is as small as possible |
| `TpcRequest.ClearsLowest` | tools/analyze_v100_tpc_request.py:29 | mask & (mask - 1) clears exactly the lowest set bit |
| `TpcRequest.LoweringRemovesLowest` | tools/analyze_v100_tpc_request.py:29 | Repeated clearing removes the lowest set bits and no others |
| `TpcRequest.CountFixesTheMask` | tools/analyze_v100_tpc_request.py:29 | A mask is determined by how many of its lowest bits are gone |
| `TpcRequest.Clear` | tools/analyze_v100_tpc_request.py:25-31 | The loop: selections are the first-largest slots, masks lose as many lowest bits as counts went down |
| `TpcRequest.WriteActive` | tools/analyze_v100_tpc_request.py:34-35 | One write per active slot, at 0x21838 + 4 * slot |
| `TpcRequest.Model` | tools/analyze_v100_tpc_request.py:16-35 | Which outcome for which request, exactly count bits cleared water-filling, and the written registers |
| `OrdinalMap.ComparatorIsConsistent` | tools/gpumon_v3_llama.c:1470-1481 | The comparator is antisymmetric on all pairs if and only if every bus id parses |
| `OrdinalMap.ComparatorDecidesBefore` | tools/gpumon_v3_llama.c:1470-1481 | On parsed ids the comparator is negative, zero or positive as the first differing component of domain, bus, device, function says |
| `OrdinalMap.SortedIsInOrder` | tools/gpumon_v3_llama.c:1470-1508 | Sorted means that nothing later comes before something earlier |
| `OrdinalMap.LeqIsTransitive` | tools/gpumon_v3_llama.c:1470-1481 | On parsed ids it is transitive |
| `OrdinalMap.SortByPci` | tools/gpumon_v3_llama.c:1508 | Sorting keeps the indices and leaves them in comparator order |
| `OrdinalMap.PciOrder` | tools/gpumon_v3_llama.c:1501-1508 | All devices once in PCI order, or refusal exactly when an id does not parse |
| `OrdinalMap.OrderIsPermutation` | tools/gpumon_v3_llama.c:1501-1508 | The order holds every device index exactly once |
| `OrdinalMap.PositionIsRank` | tools/gpumon_v3_llama.c:1470-1508 | Position in the order is rank by (domain, bus, device, function) |
| `OrdinalMap.DistinctIdsFixTheRank` | tools/gpumon_v3_llama.c:1470-1508 | With distinct ids exactly r devices come before the one at position r |
| `OrdinalMap.DistinctIdsFixTheOrder` | tools/gpumon_v3_llama.c:1470-1508 | With distinct ids there is only one order |
| `OrdinalMap.MapTokens` | tools/gpumon_v3_llama.c:1518-1537 | A list is mapped exactly when it has no leading comma, fits, and holds distinct ordinals in range |
| `OrdinalMap.MapIsInjective` | tools/gpumon_v3_llama.c:1518-1537 | The map is injective into valid NVML indices |
| `OrdinalMap.MapGoesByRank` | tools/gpumon_v3_llama.c:1518-1537 | Each listed ordinal goes to a device of that rank |
| `OrdinalMap.CudaVisibleOrdinalMap` | tools/gpumon_v3_llama.c:1483-1538 | Non-zero exactly on acceptable inputs; then the map sends ordinals through the PCI order injectively |
| `OrdinalMap.NoFilterIsTheOrder` | tools/gpumon_v3_llama.c:1510-1516 | Without a filter the map is the PCI order itself |

## Left out

- Collector behaviour after stop is requested: begin then returns uncounted and stop notifies without the mutex.
- Counter width: fewer than 2^32 request threads are in flight, so the counter does not wrap.
- Spurious wake-ups are modelled, fairness is not: progress is stated as a continuation that exists from every state, not as one that every scheduler takes.
- Metric evaluation, report writing and event-group preparation of the collector.
- Regular expressions, text tokenising and number parsing everywhere: the models start from records, instructions, tokens and argument lists.
- The other checks of the stage validator: timestamps, return codes, post registers, missed counters, logical topology and plain field errors.
- StageParsing.ParseCapture: the contents of error texts are not modelled, only which entries are recorded.
- RecoveryLatch.SecondInvocationNeedsAPass: the boot id is the recorded one, so a guest reboot between reading it and starting the helper is not seen.
- The link-status tests and the comparison of AER registers in the coordinator, and its lock file; runs are serial, as the lock makes them.
- Identity and platform checks of the NVML tool are free choices that can only refuse; the range reads of profile and reset likewise.
- NvmlTransaction.Host.WaitForClock: the readings of the HBM clock are a parameter; the pauses between them are not modelled.
- The boot script's lock directory, which cleanup removes even when it was not taken, and signals between two of its commands.
- TopDecoder.DecodeTopWords: rejection is one outcome, without its message; snapshot assembly, the GR reset selector and the POST and PMC registers are not modelled.
- AerWalk.Walk: the space is a sequence of 32-bit words, because every read is aligned; a space that ends within a word is not modelled.
- TopDecoder.Decode: names, instances and hexadecimal texts of a device are functions of its fields (`IdentityOf`), not stored.
- TpcRequest.Model: CTRL values are 32-bit words, of which the code uses the low seven bits; the ROM parsing around it is left out.
- OrdinalMap.CudaVisibleOrdinalMap: null arguments, environment lookup and a failed string copy are left out; each makes the code return 0.
- OrdinalMap.SortByPci: an insertion sort stands for qsort_r, whose own algorithm is not part of the repository.
- The rest of gpumon, the firmware patches, kernel hooks, ROM analysers, benchmarks and stress tools: device effects not visible in the repository, or straight-line checks that would only add easy members.
