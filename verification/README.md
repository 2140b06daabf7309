# Audio kernel drivers: resource agreement and handshakes

A Dafny model of the stateful parts of the Qualcomm audio kernel drivers, with proofs about
their resource accounting over unbounded runs. Each kernel call is abstracted to its outcome,
which is an argument, and its effect on what the driver holds (a reference, an attachment, a
clock, active pins, a vote). The drivers' own state and control flow are kept: branches, rollback
paths, loops, clamping of counters, error codes.

Each driver has a value-level specification (`*Model`), theorems about it (`*Invariant`,
`*Theorems`, `*Runs`, `IonOwnership`) and a class (`*Driver`) whose methods update fields, lists and arrays in
place, as the C code does, and are proved equal to the specification's functions. The smaller
drivers keep all of this in one module.

| modules | driver |
|---|---|
| `IonModel`, `IonInvariant`, `IonTheorems`, `IonRuns`, `IonOwnership`, `IonDriver` | DMA-buffer manager: one fd list, one allocation list per device, ioctls, crash handler |
| `NotifierModel`, `NotifierTheorems`, `NotifierRuns`, `NotifierDriver` | service notifier: clients by priority on PDR, then SSR |
| `HoliModel`, `HoliTheorems`, `HoliDriver` | MI2S, TDM and AUX streams sharing pins, clocks and a fractional-rate vote |
| `CommonModel`, `CommonTheorems`, `CommonDriver`, `RscMgr` | interface clocks that feed a vote count that feeds a shared clock, with flush and replay |
| `PrmModel`, `PrmTheorems`, `PrmDriver` | request/reply handshake, one shared-memory access per step |
| `SlotMap` | TDM slot tables: mixer writes against DAI-id lookups |
| `CodecModel`, `CodecDriver` | codec resolution and compaction of DAI links |
| `ChannelMap` | channel counts and masks over a link's DAIs |
| `SpParams` | fixed-point excursion display and peak hold |
| `Prelude`, `Errno` | C integer conversions, list helpers, error numbers |

## What the proofs found

The invariants are not unconditional. For the buffer manager and both stream drivers the set of
events that keep them is given exactly, as an if and only if over all inputs. What falls outside:

- Buffer manager: `UNMAP` through a device without SMMU that did not map the buffer forgets the
  fd but keeps the allocation. Mapping a listed fd, or a buffer that is already listed, leaves the
  two kinds of list in disagreement. A failed second map of a buffer removes the older
  allocation. A failed map on a device without SMMU is reported as success and loses a reference. A
  failed `vmap` leaves the CPU-access window open. Unmapping a buffer that is assigned to the DSP
  leaves the memory with the DSP, and mapping it again lists it as unassigned; with a crash that the
  hypervisor does not honour, that is the only way in which flags and owners come apart.
- Notifier: a client name of 20 or more characters is stored cut short and compared in full, so
  that client can never be deregistered by name.
- holi: a positive pin-control code is neither a failure (no rollback) nor a success (no count).
  A rollback whose clock-off fails leaves the clock running. Changing an open stream's rate
  between fractional and integral leaks or steals a vote.
- Common driver: when the clock configuration fails after the vote was taken, the vote is never
  returned. Shutting down a stream that was never prepared takes away another stream's clock
  count. AUXPCM streams and repeated hw_params are not counted consistently.
- PRM: a reply code of 2^31 or more is a negative `int`, and the sender reports success. A reply
  that arrives, or is half handled, when its caller times out is taken for the next command's; with
  a DSP that answers in time, a timeout in the middle of the callback is the only way to a wrong result.
- Display: the counts of exceeded limits are only added to when the new sample is above the count so
  far, so they stay below twice the largest sample instead of being totals.
- Codecs: when no codec of a multi-codec link is available, the link keeps all its entries, each
  without a node.
- Excursion: from 214749 * 8192 upwards a product wraps and a negative number is shown; from 2^27
  upwards the hundredths have three digits or more.

## Model

| member | source | states |
|---|---|---|
| `IonTheorems.StepKeepsInvIff` | qcom/opensource/audio-kernel/dsp/msm_audio_ion.c:675-762 | From agreement of the lists with each other and with the references, attachments, mappings and kernel addresses held, an ioctl (or the crash handler) keeps agreement if and only if it is legal: a condition on its arguments, the lists and the outcomes of its kernel calls. Covers failed calls |
| `IonRuns.EveryLegalRunAgrees` | qcom/opensource/audio-kernel/dsp/msm_audio_ion.c:675-762 | After every legal run from probe: fds and handles are distinct, each device's allocation list is in order the handles of its fd entries, each listed buffer holds one reference and one mapped attachment, and nothing was ever released twice |
| `IonRuns.LegalStepIsTableStep` | qcom/opensource/audio-kernel/dsp/msm_audio_ion.c:372-414 | The fd list refines a plain table keyed by fd: a successful map appends a row, unmap through the owning device drops the rows of that fd, hypervisor calls set a flag, a crash empties it, everything else leaves it alone |
| `IonRuns.MapUnmapRestores` | qcom/opensource/audio-kernel/dsp/msm_audio_ion.c:678-716 | A successful map of an unlisted fd and buffer followed by the unmap of that fd restores the whole state |
| `IonInvariant.FailedMapRestores` | qcom/opensource/audio-kernel/dsp/msm_audio_ion.c:327-358 | A failed map of a buffer not on the device's list changes nothing but the CPU-access window, and that stays open exactly when begin-access succeeded and vmap failed |
| `IonInvariant.MapListsEntry` | qcom/opensource/audio-kernel/dsp/msm_audio_ion.c:497-549 | A map that gets through appends one fd entry and one allocation with its kernel address, and takes exactly one reference, attachment and mapping |
| `IonRuns.MapListsBuffer` | qcom/opensource/audio-kernel/dsp/msm_audio_ion.c:693-709 | A map in which every call succeeds lists one more entry, with the fd of the call, the buffer, its physical address and length, the device, unassigned; and one allocation with the kernel address behind an SMMU, none without |
| `IonRuns.MapThenAssign` | qcom/opensource/audio-kernel/dsp/msm_audio_ion.c:723-754 | Assigning that fd gives the DSP exactly the addresses from the mapped one up to its length, address by address; unassigning takes exactly them back |
| `IonRuns.MapCodes` | qcom/opensource/audio-kernel/dsp/msm_audio_ion.c:497-549 | The return code of MAP by the first call that fails, in numbers |
| `IonRuns.OtherCodes` | qcom/opensource/audio-kernel/dsp/msm_audio_ion.c:711-760 | An unlisted fd is refused by the other ioctls with -22; an assignment returns what the hypervisor does, and a refused one changes nothing |
| `IonInvariant.ReleasedKeepsInv` | qcom/opensource/audio-kernel/dsp/msm_audio_ion.c:217-262 | Taking any listed fd off both lists, with its reference, attachment and mapping, leaves agreement among the rest |
| `IonTheorems.UnmapCases` | qcom/opensource/audio-kernel/dsp/msm_audio_ion.c:698-716 | The complete outcome of UNMAP for a listed or unlisted fd, on its own or another device, with CPU-access end succeeding or failing |
| `IonTheorems.IllegalFailedMap` | qcom/opensource/audio-kernel/dsp/msm_audio_ion.c:217-262 | The failure path of a second map of a buffer removes the first allocation, wherever it is in the list, and leaves the new one at the end without kernel address; agreement is broken |
| `IonTheorems.UnreportedFailure` | qcom/opensource/audio-kernel/dsp/msm_audio_ion.c:497-549 | Without SMMU a failed map returns 0 with the allocation lists unchanged and one reference more held, which no list accounts for |
| `IonRuns.CrashReleasesAllIff` | qcom/opensource/audio-kernel/dsp/msm_audio_ion.c:610-647 | The crash handler empties the fd list and every device's allocation list with each buffer released exactly once, if and only if no listed buffer behind an SMMU fails to end its CPU access |
| `IonTheorems.CrashLeaves` | qcom/opensource/audio-kernel/dsp/msm_audio_ion.c:560-582 | A buffer whose CPU-access end fails in the crash handler is still on its device's list afterwards |
| `IonRuns.CrashReturnsMemory` | qcom/opensource/audio-kernel/dsp/msm_audio_ion.c:584-602 | The crash handler returns to HLOS exactly the memory of flagged listed fds whose unassignment the hypervisor accepts, from any state |
| `IonOwnership.OwnershipStepIff` | qcom/opensource/audio-kernel/dsp/msm_audio_ion.c:723-754 | Flags tell who owns the memory and none is lost: a step keeps both if and only if it is not an UNMAP that deletes an assigned buffer, nor a crash in which the hypervisor refuses to return one. Whatever the lists look like and the kernel answers; assumed only that a newly listed buffer overlaps no listed one |
| `IonOwnership.OwnershipRunIff` | qcom/opensource/audio-kernel/dsp/msm_audio_ion.c:675-762 | Over any run of ioctls and crashes with that assumption, both hold at every point if and only if every step is safe in that sense |
| `IonOwnership.OwnershipRun` | qcom/opensource/audio-kernel/dsp/msm_audio_ion.c:675-762 | After every safe run from probe each listed fd's flag equals ownership of its memory by the DSP, and the DSP owns no other memory |
| `IonOwnership.UnsafeUnmapIff` | qcom/opensource/audio-kernel/dsp/msm_audio_ion.c:698-716 | With the lists in agreement, the unsafe legal UNMAP is exactly the one of an assigned, non-empty buffer through its own device |
| `IonOwnership.UnmapOrphansIff` | qcom/opensource/audio-kernel/dsp/msm_audio_ion.c:698-716 | Unmapping leaves no DSP-owned memory without a listed fd if and only if the buffer was not assigned (or is empty) |
| `IonOwnership.AssignThenUnmap` | qcom/opensource/audio-kernel/dsp/msm_audio_ion.c:698-754 | Assigning and then unmapping any listed fd succeeds, forgets the fd, and leaves its memory with the DSP |
| `IonOwnership.MapAfterUnmapIff` | qcom/opensource/audio-kernel/dsp/msm_audio_ion.c:678-716 | A listed buffer unmapped and another mapped, disjoint from all still listed: flags and owners agree if and only if the first was not assigned or the second lies elsewhere |
| `IonOwnership.RemapLosesOwner` | qcom/opensource/audio-kernel/dsp/msm_audio_ion.c:675-754 | For every listed, non-empty buffer: assign, unmap and map again are each successful and legal for the lists, and leave it listed and unassigned with its memory at the DSP |
| `IonDriver.AudioIon.MsmAudioIonMapKernel` | qcom/opensource/audio-kernel/dsp/msm_audio_ion.c:104-140 | In place, with the list search: begins CPU access, maps, records the address in the first matching node; nothing undone when the map fails |
| `IonDriver.AudioIon.MsmAudioDmaBufMap` | qcom/opensource/audio-kernel/dsp/msm_audio_ion.c:143-215 | In place: attach, map and append, with the detach on failure |
| `IonDriver.AudioIon.MsmAudioDmaBufUnmap` | qcom/opensource/audio-kernel/dsp/msm_audio_ion.c:217-262 | In place: finds and deletes the first node of the buffer and releases its mapping, attachment and reference, or reports -EINVAL |
| `IonDriver.AudioIon.MsmAudioIonBufMap` | qcom/opensource/audio-kernel/dsp/msm_audio_ion.c:327-358 | In place: map and kernel map, with the driver's own cleanup |
| `IonDriver.AudioIon.MsmAudioIonImport` | qcom/opensource/audio-kernel/dsp/msm_audio_ion.c:497-549 | In place: probe check, reference, and the SMMU and non-SMMU paths with their return codes |
| `IonDriver.AudioIon.MsmAudioIonUnmapKernel` | qcom/opensource/audio-kernel/dsp/msm_audio_ion.c:286-324 | In place: search, unmap, end of CPU access, and the address that stays in the node |
| `IonDriver.AudioIon.MsmAudioIonFree` | qcom/opensource/audio-kernel/dsp/msm_audio_ion.c:560-582 | In place: kernel unmap first behind an SMMU, stop on its error |
| `IonDriver.AudioIon.MsmAudioUpdateFdList` | qcom/opensource/audio-kernel/dsp/msm_audio_ion.c:372-388 | In place: appends unless the fd is listed |
| `IonDriver.AudioIon.MsmAudioDeleteFdEntry` | qcom/opensource/audio-kernel/dsp/msm_audio_ion.c:390-414 | In place: deletes the first entry of a handle |
| `IonDriver.AudioIon.FindFd` | qcom/opensource/audio-kernel/dsp/msm_audio_ion.c:416-442 | The index of the first entry of an fd, or the length of the list |
| `IonDriver.AudioIon.MsmAudioSetHypAssign` | qcom/opensource/audio-kernel/dsp/msm_audio_ion.c:444-463 | In place: sets the flag of the first entry of an fd |
| `IonDriver.AudioIon.CrashHandler` | qcom/opensource/audio-kernel/dsp/msm_audio_ion.c:610-647 | In place, two loops: unassign and free every entry on the device that mapped it, then delete all entries |
| `IonDriver.AudioIon.Ioctl` | qcom/opensource/audio-kernel/dsp/msm_audio_ion.c:675-762 | The dispatcher takes exactly the specified step for every command |
| `NotifierRuns.EveryRunAgrees` | qcom/opensource/audio-kernel/dsp/audio_notifier.c:256-405 | After every run from probe with a block of its own per client: for each service and domain the client count is the listed clients, the chain is exactly their blocks in priority order, and a framework handle is held iff the count is positive; if no callback was cut short, every PDR client was last told the slot's state |
| `NotifierRuns.StepKeepsInv` | qcom/opensource/audio-kernel/dsp/audio_notifier.c:359-405 | Every registration, deregistration and callback keeps that agreement, whichever call fails in it |
| `NotifierTheorems.RegisterOutcome` | qcom/opensource/audio-kernel/dsp/audio_notifier.c:308-357 | The priority loop's complete outcome: the client, under the first 19 characters of its name, ends on the highest-priority service that accepts it, or on none with -22 and the state unchanged |
| `NotifierTheorems.FailedRegisterChangesNothing` | qcom/opensource/audio-kernel/dsp/audio_notifier.c:532-574 | A registration that returns an error, for any reason, leaves slots, chains, client list and views as they were |
| `NotifierTheorems.DeregClientOutcome` | qcom/opensource/audio-kernel/dsp/audio_notifier.c:359-405 | Removing a listed client's block from its chain never fails; only the SSR framework can refuse, and then nothing changes |
| `NotifierTheorems.RemoveFromChain` | qcom/opensource/audio-kernel/dsp/audio_notifier.c:388-393 | Unregistering a block from a chain built by any registrations leaves the chain of the remaining registrations |
| `NotifierTheorems.OneChainEach` | qcom/opensource/audio-kernel/dsp/audio_notifier.c:283-287 | A listed client's block is on its own slot's chain and on no other |
| `NotifierTheorems.RegisterKeepsViews` | qcom/opensource/audio-kernel/dsp/audio_notifier.c:289-303 | State replay: a client that joins a live PDR slot, or the first after the last one left, is told the cached state |
| `NotifierTheorems.CallbackViewsIff` | qcom/opensource/audio-kernel/dsp/audio_notifier.c:446-475 | After a PDR callback all PDR clients know the slot's state if and only if no block stopped the chain or the state did not change |
| `NotifierTheorems.CallbackDelivers` | qcom/opensource/audio-kernel/dsp/audio_notifier.c:424-475 | A service going down, by either framework's opcode, is cached as 0 and told to every block of the slot up to the first that stops the chain; coming up likewise as 1; other opcodes do nothing. Other slots, later blocks and the client list are untouched |
| `NotifierTheorems.InsertPlace` | qcom/opensource/audio-kernel/dsp/audio_notifier.c:284-287 | A block joins behind all blocks of at least its priority and before all of less |
| `NotifierRuns.RegisterThenDeregisterIff` | qcom/opensource/audio-kernel/dsp/audio_notifier.c:498-574 | Register then deregister restores client list, counts, chains and use of handles if and only if the name has at most 19 characters and nobody was registered under it |
| `NotifierRuns.DeregDropsName` | qcom/opensource/audio-kernel/dsp/audio_notifier.c:498-529 | The deregistration walk, which deletes while it iterates, drops exactly the clients of that name and keeps the others in order |
| `NotifierRuns.DeregSucceedsIff` | qcom/opensource/audio-kernel/dsp/audio_notifier.c:498-529 | Whatever the frameworks answer: deregistration returns 0 if and only if nobody is left under the name, and clients of other names keep their order |
| `NotifierRuns.RegisterRefusals` | qcom/opensource/audio-kernel/dsp/audio_notifier.c:532-553 | Missing name or block, no memory and unknown domains are refused with their codes and no change |
| `NotifierRuns.ServedClientsStay` | qcom/opensource/audio-kernel/dsp/audio_notifier.c:407-422 | Walking the clients again for services leaves a served client alone |
| `NotifierDriver.AudioNotifier.AudioNotifierRegService` | qcom/opensource/audio-kernel/dsp/audio_notifier.c:166-218 | In place: stores state and handle only when the framework answers |
| `NotifierDriver.AudioNotifier.AudioNotifierDeregService` | qcom/opensource/audio-kernel/dsp/audio_notifier.c:220-254 | In place: clears state and handle only when the framework agrees |
| `NotifierDriver.AudioNotifier.AudioNotifierRegClientService` | qcom/opensource/audio-kernel/dsp/audio_notifier.c:256-306 | In place: opens the service for its first client, joins the chain, replays the state to a PDR client |
| `NotifierDriver.AudioNotifier.AudioNotifierRegClient` | qcom/opensource/audio-kernel/dsp/audio_notifier.c:308-357 | In place: the downward service loop with its skip, stop and success branches |
| `NotifierDriver.AudioNotifier.AudioNotifierDeregClient` | qcom/opensource/audio-kernel/dsp/audio_notifier.c:359-405 | In place: closes the service of a last client, then leaves the chain |
| `NotifierDriver.AudioNotifier.AudioNotifierRegister` | qcom/opensource/audio-kernel/dsp/audio_notifier.c:532-574 | In place: argument checks, stored name, registration, list append |
| `NotifierDriver.AudioNotifier.AudioNotifierDeregister` | qcom/opensource/audio-kernel/dsp/audio_notifier.c:498-529 | In place: the list walk with deletion, and the last error |
| `NotifierDriver.AudioNotifier.AudioNotifierServiceCb` | qcom/opensource/audio-kernel/dsp/audio_notifier.c:446-475 | In place: caches 0 for the down opcodes and 1 for the up opcodes, calls the chain up to a stop; nothing for other opcodes |
| `HoliTheorems.StepKeepsInvIff` | qcom/opensource/audio-kernel/asoc/holi.c:4120-4540 | An opening, closing or rate change keeps the following agreement if and only if it is legal: per interface the MI2S count is the open MI2S streams, the pin count is one for MI2S plus one per open TDM and AUX stream, pins are active and the clock is on exactly while counted; the vote is the open fractional-rate streams of the voting interfaces, enabled once exactly while positive |
| `HoliTheorems.RunKeepsInv` | qcom/opensource/audio-kernel/asoc/holi.c:4120-4540 | Over every legal run the counters, pins, clocks and vote agree with the open streams |
| `HoliTheorems.AllClosedIsIdle` | qcom/opensource/audio-kernel/asoc/holi.c:4504-4540 | A legal run from idle after which every stream is closed ends with all counters zero, clocks off, pins asleep and the vote returned, whichever startups failed on the way |
| `HoliTheorems.FailedStartupRestoresIff` | qcom/opensource/audio-kernel/asoc/holi.c:4427-4501 | Whichever step of an MI2S startup fails with a negative code, the whole state equals that on entry, if and only if the rollback did not have to switch off a clock that refuses |
| `HoliTheorems.FirstUseFails` | qcom/opensource/audio-kernel/asoc/holi.c:4456-4501 | The exact state after a failed first use, rollback by rollback |
| `HoliTheorems.FirstUseSucceeds` | qcom/opensource/audio-kernel/asoc/holi.c:4456-4489 | The counters, clock, pins and vote after a first use that succeeds, including the positive pin-control code that is not counted |
| `HoliTheorems.OpenMi2sIff` | qcom/opensource/audio-kernel/asoc/holi.c:4399-4502 | Opening an MI2S stream keeps agreement if and only if it is legal, failed openings included |
| `HoliTheorems.CloseMi2sIff` | qcom/opensource/audio-kernel/asoc/holi.c:4504-4540 | Closing an MI2S stream keeps agreement if and only if the last user's clock-off and, when nobody else uses the pins, their sleep state succeed |
| `HoliTheorems.OpenPinsIff` | qcom/opensource/audio-kernel/asoc/holi.c:4120-4215 | Opening a TDM or AUX stream keeps agreement if and only if pin control does not return a positive code |
| `HoliTheorems.ClosePinsIff` | qcom/opensource/audio-kernel/asoc/holi.c:4154-4243 | Closing a TDM or AUX stream keeps agreement if and only if the last user's sleep state succeeds |
| `HoliTheorems.SetRateIff` | qcom/opensource/audio-kernel/asoc/holi.c:2120-2136 | A rate change keeps agreement if and only if it does not change between fractional and integral under an open stream of a voting interface |
| `HoliTheorems.StartupCounts` | qcom/opensource/audio-kernel/asoc/holi.c:4427-4456 | An MI2S startup that succeeds adds one use modulo 2^32, and one vote exactly on the first three interfaces when the direction's own rate is 11025, 22050, 44100, 88200, 176400 or 352800 |
| `HoliTheorems.ShutdownCounts` | qcom/opensource/audio-kernel/asoc/holi.c:4504-4540 | A shutdown takes back one use, and one vote on the same condition |
| `HoliTheorems.StartupCodes` | qcom/opensource/audio-kernel/asoc/holi.c:4399-4502 | The return code of an MI2S startup by the first step that fails |
| `HoliTheorems.TdmIds` | qcom/opensource/audio-kernel/asoc/holi.c:4092-4118 | TDM ids 0x9000 + 16 * i and the next one use the count and pins of interface i alone; every other id is refused with -22 and no change |
| `HoliTheorems.AuxIds` | qcom/opensource/audio-kernel/asoc/holi.c:4183-4243 | AUX ids 1 to 4 use the count and pins of interfaces 0 to 3; every other id is refused |
| `HoliDriver.MachineData.Mi2sDisableAudioVote` | qcom/opensource/audio-kernel/asoc/holi.c:4366-4397 | In place: drops a vote of a voting interface at a fractional rate, clamps at zero, disables the clock at zero |
| `HoliDriver.MachineData.MsmMi2sSetSclk` | qcom/opensource/audio-kernel/asoc/holi.c:2429-2462 | In place: the clock follows the request when the DSP accepts it |
| `HoliDriver.MachineData.MsmMi2sSndStartup` | qcom/opensource/audio-kernel/asoc/holi.c:4399-4502 | In place: checks, vote, count, first use with its rollbacks |
| `HoliDriver.MachineData.MsmMi2sSndShutdown` | qcom/opensource/audio-kernel/asoc/holi.c:4504-4540 | In place: vote, count, clock and pins of the last user |
| `HoliDriver.MachineData.HoliTdmSndStartup` | qcom/opensource/audio-kernel/asoc/holi.c:4120-4152 | In place: the pins and count of interface i for ids 0x9000 + 16 * i and the next, pins asked for by the first user only; -22 and no change for other ids |
| `HoliDriver.MachineData.HoliTdmSndShutdown` | qcom/opensource/audio-kernel/asoc/holi.c:4154-4181 | In place: one user of that interface less, pins to sleep after the last; no change for other ids |
| `HoliDriver.MachineData.HoliAuxSndStartup` | qcom/opensource/audio-kernel/asoc/holi.c:4183-4215 | In place: the same for AUX ids 1 to 4 and interfaces 0 to 3 |
| `HoliDriver.MachineData.HoliAuxSndShutdown` | qcom/opensource/audio-kernel/asoc/holi.c:4217-4243 | In place: one user of that interface less |
| `CommonTheorems.StepKeepsInvIff` | qcom/opensource/audio-kernel/asoc/msm_common.c:347-603 | A startup, hw_params, shutdown or vote reset keeps the following agreement if and only if it is legal: per interface the clock count is its prepared streams, its clock runs exactly while it has one, the pin count is its open streams with the pins active exactly while counted; the vote count is the interfaces running at a fractional rate that need a vote, and the shared clock carries one enable exactly while there are any |
| `CommonTheorems.RunKeepsInv` | qcom/opensource/audio-kernel/asoc/msm_common.c:347-603 | Over every legal run those counts, clocks, pins and votes agree |
| `CommonTheorems.AllClosedIsIdle` | qcom/opensource/audio-kernel/asoc/msm_common.c:530-603 | A legal run from idle after which every stream is closed ends with all counts zero, clocks and pins off, and the shared clock not enabled |
| `CommonTheorems.OpenIff` | qcom/opensource/audio-kernel/asoc/msm_common.c:492-528 | A startup keeps agreement if and only if pin control returns no positive code |
| `CommonTheorems.PrepareIff` | qcom/opensource/audio-kernel/asoc/msm_common.c:379-490 | A hw_params keeps agreement if and only if: for a further stream, it was not prepared and matches kind and rate; for a first stream, it is not AUXPCM and no clock failure follows a vote that was taken |
| `CommonTheorems.FirstPrepareCases` | qcom/opensource/audio-kernel/asoc/msm_common.c:390-486 | A first hw_params does nothing, keeps the vote alone, or does everything, and its return code says which of failure and success |
| `CommonTheorems.VoteLeaks` | qcom/opensource/audio-kernel/asoc/msm_common.c:419-434 | A vote taken with no stream prepared for it breaks agreement exactly when one was needed |
| `CommonTheorems.FailedClkLeaksVote` | qcom/opensource/audio-kernel/asoc/msm_common.c:462-478 | A clock failure after the vote leaves the stream unprepared and one vote more than there are voting interfaces |
| `CommonTheorems.CloseIff` | qcom/opensource/audio-kernel/asoc/msm_common.c:530-603 | A shutdown keeps agreement if and only if the stream was prepared (or nothing was), and the last user's clock release and sleep state succeed |
| `CommonTheorems.ResetIff` | qcom/opensource/audio-kernel/dsp/digital-cdc-rsc-mgr.c:71-92 | A flush and replay of the votes keeps agreement if and only if the re-enable of a carried vote succeeds |
| `CommonTheorems.FirstPrepareVotes` | qcom/opensource/audio-kernel/asoc/msm_common.c:390-486 | The first prepared stream takes one vote exactly when the interface requires it and the rate is 44100, 88200, 176400 or 352800, and starts the clock of its own kind |
| `CommonTheorems.LastShutdownVotes` | qcom/opensource/audio-kernel/asoc/msm_common.c:552-585 | The last shutdown returns a vote on the same condition |
| `CommonDriver.CommonPdata.Mi2sTdmHwVoteReq` | qcom/opensource/audio-kernel/asoc/msm_common.c:347-377 | In place, over the shared clock object: enable on the first vote, disable on the last, clamp below zero |
| `CommonDriver.CommonPdata.MsmCommonSndStartup` | qcom/opensource/audio-kernel/asoc/msm_common.c:492-528 | In place: pins of the first user |
| `CommonDriver.CommonPdata.MsmCommonSndHwParams` | qcom/opensource/audio-kernel/asoc/msm_common.c:379-490 | In place: vote and clock of the first prepared stream, the AUXPCM exit, the count |
| `CommonDriver.CommonPdata.MsmCommonSndShutdown` | qcom/opensource/audio-kernel/asoc/msm_common.c:530-603 | In place: clock and vote of the last, pins of the last, both counts clamped |
| `RscMgr.DownPassesZero` | qcom/opensource/audio-kernel/dsp/digital-cdc-rsc-mgr.c:71-92 | The flush passes every count below the start once, in order, down to zero |
| `RscMgr.RestoredIff` | qcom/opensource/audio-kernel/dsp/digital-cdc-rsc-mgr.c:71-92 | The replay never exceeds the initial count and reaches it if and only if every re-enable succeeds |
| `RscMgr.RestoredIsCount` | qcom/opensource/audio-kernel/dsp/digital-cdc-rsc-mgr.c:88-90 | The count after the replay is the number of re-enables that succeed |
| `RscMgr.VoteClock.HwVoteEnable` | qcom/opensource/audio-kernel/dsp/digital-cdc-rsc-mgr.c:24-41 | One enable more exactly when the clock framework accepts it |
| `RscMgr.VoteClock.HwVoteDisable` | qcom/opensource/audio-kernel/dsp/digital-cdc-rsc-mgr.c:51-64 | One enable fewer, and none taken from zero |
| `RscMgr.VoteClock.HwVoteReset` | qcom/opensource/audio-kernel/dsp/digital-cdc-rsc-mgr.c:71-92 | Both loops terminate; the trace of enable counts is the descent to zero and then the climb, ending with the enables that succeeded |
| `PrmTheorems.EveryCommandSound` | qcom/opensource/audio-kernel/dsp/audio_prm.c:40-137 | In every interleaving of sender, callback, timeout, service callbacks and device changes, over any number of commands, every finished command returned what its reply calls for, given at most one timely reply per command |
| `PrmTheorems.ResultIff` | qcom/opensource/audio-kernel/dsp/audio_prm.c:117-134 | Of a command that was sent: -ETIMEDOUT iff no reply came, -EINVAL iff the code is in 1..2^31-1, 0 iff the code is 0 or at least 2^31 |
| `PrmTheorems.UnsentResult` | qcom/opensource/audio-kernel/dsp/audio_prm.c:95-117 | A command that was not sent returned -ENODEV without a device, else the transport's code |
| `PrmTheorems.RunKeepsInv` | qcom/opensource/audio-kernel/dsp/audio_prm.c:40-137 | What status and resp_received hold at each program point of the sender and the callback, over every legal run |
| `PrmTheorems.SoundIffStatusFirst` | qcom/opensource/audio-kernel/dsp/audio_prm.c:46-79 | Every legal run is sound if and only if the callback writes the status before resp_received |
| `PrmTheorems.SwappedWritesLoseErrors` | qcom/opensource/audio-kernel/dsp/audio_prm.c:53-60 | With the writes swapped, any positive error code is lost by a legal run |
| `PrmTheorems.LateReplyIsMistaken` | qcom/opensource/audio-kernel/dsp/audio_prm.c:111-126 | A reply after its caller's timeout becomes the result of the next, unanswered command, for every code |
| `PrmTheorems.HalfDoneReplyIsMistaken` | qcom/opensource/audio-kernel/dsp/audio_prm.c:111-126 | So does a reply whose callback is between its writes at the timeout |
| `PrmTheorems.SoundIffNoOvertaking` | qcom/opensource/audio-kernel/dsp/audio_prm.c:40-137 | For every run in which the DSP answers each command at most once and while its caller waits, with timeouts at any time: all results are what the replies call for if and only if no timeout fell between a callback's start and its announcement |
| `PrmDriver.AudioPrm.AudioPrmCallback` | qcom/opensource/audio-kernel/dsp/audio_prm.c:40-81 | The callback's statements are a run of the machine, for a reply to any command, awaited or not: it leaves the reply's code in status, announces it, and the run stays legal exactly when it was the first reply to the command being waited for |
| `PrmDriver.AudioPrm.CheckApmReady` | qcom/opensource/audio-kernel/dsp/audio_prm.c:98-110 | The readiness check asks at most four times, and marks itself done whatever the answers were |
| `PrmDriver.AudioPrm.PrmGprSendPkt` | qcom/opensource/audio-kernel/dsp/audio_prm.c:83-137 | The sender's statements are a run that adds one finished command with the result its reply calls for, within seventeen steps, also while an earlier callback has yet to return |
| `PrmDriver.AudioPrm.AudioPrmServiceCb` | qcom/opensource/audio-kernel/dsp/audio_prm.c:402-424 | A service that went down makes the next sender check readiness again; one that came up does not forget a check |
| `SlotMap.TdmConfig.TdmSlotMapPut` | qcom/opensource/audio-kernel/asoc/holi.c:1675-1712 | A write with selectors in range sets the valid offsets of exactly the port it selects; any other is refused and changes no cell |
| `SlotMap.TdmConfig.WriteSlots` | qcom/opensource/audio-kernel/asoc/holi.c:1701-1709 | The slot loop sets the slots with valid offsets and touches no other cell |
| `SlotMap.TdmConfig.TdmSlotOffsets` | qcom/opensource/audio-kernel/asoc/holi.c:3995-4019 | For any DAI id: refused below the range, past the tables exactly when the port does not exist, else each slot is the last valid offset written for that port or its initial value, whatever was written for others |
| `SlotMap.LastWriteWins` | qcom/opensource/audio-kernel/asoc/holi.c:1701-1709 | A slot holds what a write set it to until a later write sets it, over any sequence of writes |
| `SlotMap.WriteThenLookup` | qcom/opensource/audio-kernel/asoc/holi.c:1675-1712 | A write with interface argument 2 * i + path and channel c sets the slots found for DAI id 0x9000 + 16 * i + 2 * c + path, for values 0, 4, .. 28, and for no other value and no other id |
| `SlotMap.OffsetsAre` | qcom/opensource/audio-kernel/asoc/holi.c:1704-1706 | The valid offsets are exactly 0, 4, .. 28 |
| `SlotMap.NeverWritten` | qcom/opensource/audio-kernel/asoc/holi.c:397-488 | A slot no write sets keeps its initial value |
| `SlotMap.PortOfId` | qcom/opensource/audio-kernel/asoc/holi.c:4002-4012 | Taking a DAI id apart is the inverse of numbering ports |
| `SlotMap.IdsArePorts` | qcom/opensource/audio-kernel/include/dsp/apr_audio-v2.h:1438-1447 | Every id from the range start decodes and encodes back, and to an existing interface exactly when it is one of the first 64 |
| `SlotMap.CellsAreDistinct` | qcom/opensource/audio-kernel/asoc/holi.c:1697-1699 | No two slots of ports share a cell |
| `CodecModel.KeptIsFilter` | qcom/opensource/audio-kernel/asoc/waipio.c:1341-1351 | The new list is the enabled codecs, each once, in their old order |
| `CodecModel.ResolvedAt` | qcom/opensource/audio-kernel/asoc/waipio.c:1286-1307 | After a naming pass that misses no node, a codec without node whose name is listed has the node at its own name's index, no name and its old DAI name; every other codec is unchanged |
| `CodecModel.PopulatedNodes` | qcom/opensource/audio-kernel/asoc/waipio.c:1264-1360 | Every codec that ends with a node has the old node, or the one at the name's index, of a codec of its own link with its DAI name |
| `CodecModel.KeptAllIff` | qcom/opensource/audio-kernel/asoc/waipio.c:1315-1331 | All codecs are kept exactly when all are enabled, none exactly when none is |
| `CodecModel.CompactedIsAvailable` | qcom/opensource/audio-kernel/asoc/waipio.c:1312-1356 | After the pass a multi-codec link names no unavailable node, and consists of enabled codecs if and only if it had one |
| `CodecModel.CompactedIsStable` | qcom/opensource/audio-kernel/asoc/waipio.c:1312-1356 | A second pass changes nothing |
| `CodecDriver.DaiLink.ResolveCodecs` | qcom/opensource/audio-kernel/asoc/waipio.c:1283-1309 | In place: each listed name is replaced by the node at its index, up to the first missing node; resolved, unnamed and unlisted codecs and everything after the stop are unchanged |
| `CodecDriver.DaiLink.CheckCodecs` | qcom/opensource/audio-kernel/asoc/waipio.c:1315-1329 | In place: drops unavailable nodes and counts the codecs that will be kept |
| `CodecDriver.DaiLink.CopyEnabled` | qcom/opensource/audio-kernel/asoc/waipio.c:1341-1353 | The copy loop stays within the allocation and yields exactly the kept codecs; num_codecs is their number |
| `CodecDriver.DaiLink.CompactCodecs` | qcom/opensource/audio-kernel/asoc/waipio.c:1311-1356 | One link's pass: compacted, or -ENOMEM with only the nodes dropped, and exactly when |
| `CodecDriver.PopulateDaiLinks` | qcom/opensource/audio-kernel/asoc/waipio.c:1264-1360 | Over a card whose links may share codec lists: success compacts every link's resolved list, and each node in it is the old or the listed node of a codec of that link; -ENODEV if and only if some codec's node is missing; -ENOMEM only for a failed allocation |
| `CodecDriver.CompactLink` | qcom/opensource/audio-kernel/asoc/waipio.c:1312-1356 | One link's second pass keeps every finished link compacted and every shared list at most checked, so the other links still compact to the same result |
| `CodecModel.ResolvedTwice` | qcom/opensource/audio-kernel/asoc/waipio.c:1283-1309 | Resolving a list a second time, for another link that has it, changes nothing and misses the same nodes |
| `CodecModel.PassedTwice` | qcom/opensource/audio-kernel/asoc/waipio.c:1312-1356 | A list whose unavailable nodes were dropped for one link compacts for another to what it would have before |
| `ChannelMap.MsmChannelMapGet` | qcom/opensource/audio-kernel/asoc/msm_common.c:858-912 | With every present DAI answering 0 or -524: the receive sum modulo 2^32 with the bits any receive mask has, if that sum is not 0; else the transmit pair if its sum is not 0; else nothing; -12 without memory. Else the first other answer |
| `ChannelMap.TotalIs` | qcom/opensource/audio-kernel/asoc/msm_common.c:883-886 | A gathered count is the sum of the direction's counts, and a gathered mask has bit n exactly when some DAI's mask of that direction has it |
| `ChannelMap.GatheredIs` | qcom/opensource/audio-kernel/asoc/msm_common.c:858-909 | Receive over transmit over nothing, in those terms |
| `ChannelMap.PopCountIsCard` | qcom/opensource/audio-kernel/asoc/msm_common.c:883-886 | The population count used below is the number of bits set |
| `ChannelMap.SumIsPopCount` | qcom/opensource/audio-kernel/asoc/msm_common.c:883-886 | For disjoint masks with matching counts, the sum of counts is the population count of the union and does not wrap, over any sequence of DAIs |
| `ChannelMap.ReportedCountIsPopCount` | qcom/opensource/audio-kernel/asoc/msm_common.c:889-909 | Under the same condition the reported count is the number of bits of the reported mask, and nothing is reported exactly when no DAI has a channel |
| `ChannelMap.OrAvoids` | qcom/opensource/audio-kernel/asoc/msm_common.c:885-886 | A mask disjoint from every DAI's is disjoint from their union |
| `SpParams.ShownNearly` | qcom/opensource/audio-kernel/dsp/sp_params.c:86-100 | Below the limit the hundredths shown are floor(100*x/2^27), or one less exactly when the dropped low bits carry over |
| `SpParams.TwoDigitsIff` | qcom/opensource/audio-kernel/dsp/sp_params.c:93-97 | Below the limit the hundredths fit two digits exactly for x < 2^27 |
| `SpParams.FitsIff` | qcom/opensource/audio-kernel/dsp/sp_params.c:93-94 | No step of the conversion wraps exactly for x < 214749 * 8192 |
| `SpParams.ShownNegativeIff` | qcom/opensource/audio-kernel/dsp/sp_params.c:93-96 | Exactly from there on the number shown is negative |
| `SpParams.PeakIsMax` | qcom/opensource/audio-kernel/dsp/sp_params.c:337-368 | A held peak is the largest of 0 and every sample since it was last shown |
| `SpParams.CountBounds` | qcom/opensource/audio-kernel/dsp/sp_params.c:370-388 | A count of exceeded limits is at least every sample and at most their sum, while samples stay below 2^31 |
| `SpParams.CountStaysLow` | qcom/opensource/audio-kernel/dsp/sp_params.c:370-388 | It stays below twice the largest sample, however many there were |
| `SpParams.CountIsSumIff` | qcom/opensource/audio-kernel/dsp/sp_params.c:370-388 | It is the sum of the samples if and only if each sample was zero or above the count so far |
| `SpParams.AfeSpk.AfeGetSpXtLoggingData` | qcom/opensource/audio-kernel/dsp/sp_params.c:327-393 | Each peak becomes the larger of itself and the sample of its own quantity, each count adds a larger sample modulo 2^32, for both speakers; so all are those of the longer log. A failed read changes nothing |
| `SpParams.AfeSpk.SpCountExceededShow` | qcom/opensource/audio-kernel/dsp/sp_params.c:30-82 | Shows the count since the previous showing and starts over, for that count and speaker only |
| `SpParams.AfeSpk.SpMaxExcursionShow` | qcom/opensource/audio-kernel/dsp/sp_params.c:86-117 | Shows the peak since the previous showing and starts over, for that speaker only |
| `SpParams.AfeSpk.SpMaxTemperatureShow` | qcom/opensource/audio-kernel/dsp/sp_params.c:120-143 | The same for the temperature, in whole degrees |
| `SpParams.AfeSpk.SpMaxTemperatureRdShow` | qcom/opensource/audio-kernel/dsp/sp_params.c:146-162 | Shows the peak over everything logged, which no showing resets |

## Left out

- True parallelism and locks: outside the PRM handshake every entry point is one step. The PRM machine is sequentially consistent; memory reordering between the two writes is not modelled.
- Values of kernel calls: clocks, pin control, dma-buf, hypervisor, device tree and DSP calls are outcomes given as arguments; frequencies, clock ids and packet contents are not modelled.
- Buffer manager: the branch of `msm_audio_dma_buf_map` for a non-IOVA mapping, which no caller takes; the SMMU stream id that is or-ed into addresses; the debug listing; probe and character-device registration.
- Aliasing: list nodes, clients and entries are values in sequences, so two pointers to one node are not modelled. DAI links may share a codec array.
- Width of counters: the holi MI2S count wraps at 32 bits as in the code; atomic pin, clock and vote counts are unbounded integers.
- Notifier: services whose probe has not completed beyond the early-exit branch, the DSP name and callback data, and registering one block twice.
- holi: format and sample-rate tables, the clock-frequency update, stream directions other than playback and capture beyond their error path; mixer get and put functions other than the slot map.
- Common driver: classification of stream names, clock-id lookup failures, user-space service state, QoS requests, and the SLIM branch of the channel map.
- Legal runs: AUXPCM streams and repeated hw_params in the common driver, and aliased maps in the buffer manager, are shown to break agreement rather than given a weaker invariant of their own.
- PRM: senders without a wait queue (no caller is one), opcodes other than the three replies, and `state`, which the code writes and never reads, beyond its value.
- SlotMap: what the code reads past its four tables for DAI ids of the quinary and senary interfaces, which the card has no links for.
- PrmDriver.AudioPrm.PrmGprSendPkt: a stale reply that arrives during the call is not part of this method's contract; the machine covers it (`PrmTheorems.LateReplyIsMistaken`, `PrmTheorems.SoundIffNoOvertaking`).
- Targets `bengal.c`, `kona.c`, `lahaina.c` and `sdx-target.c`: repeat these protocols.
