# Trusted Firmware-M: verified models

Dafny models of the stateful core of Trusted Firmware-M and proofs about them. `dafny verify dfyconfig.toml` checks
everything; no file depends on anything outside this directory.

- **Non-secure mailbox.** `MailboxThread` and `MailboxDirect` are transition systems of the two variants: every
  spin-locked section, critical section and separate access of the runner or the interrupt handler to shared data is
  one step, and the theorems in `MailboxThreadRuns` and `MailboxDirectRuns` hold for every interleaving;
  `MailboxThreadSteps` and `MailboxDirectSteps` say what each step of a run does.
  `MailboxMasks`, `MailboxQueue` and `MailboxDirectQueue` hold masks, slots, locked sections and interrupt handlers as
  the code keeps them and prove that they perform steps of the protocols. `SlotMask` ties the mask operations to sets of
  slots.
- **Flash map of the second-stage bootloader.** `FlashMap`: reads and read-modify-writes at any offset over a driver
  whose alignment rules are preconditions. `Align` has the alignment arithmetic.
- **Crypto service.** `CryptoTable` (operation table and multipart shims as functions), `CryptoService` (the same on
  an array changed in place), `CryptoRuns` (clients and service together, against a form in which each object carries
  its own context), `CryptoScratch` (bump allocator and request handler).
- **Firmware update.** `FirmwareUpdate` (request handlers as functions of contexts, staging areas and bootloader
  answers), `FirmwareUpdateService` (the handlers with their loops), `FirmwareUpdateRuns` (what all runs keep),
  `FirmwareUpdateAnswers` (when each request succeeds and what it answers and leaves behind otherwise).
- **Manifest tool.** `DependencyCheck` (depth-first search for cycles) and `StatelessHandles` (slot allocation and
  encoding).
- **Boot data.** `BootData` (entries, their printed form, measurements), `BootDataArea` (writer and reader) and
  `BootDataAnswers` (when entries are added, and what then is in the list).
- **Fault-injection counter.** `ControlFlow`: FIH_CALL, FIH_RET and steps over all call trees.
- **memcpy and memset.** `MemoryFunctions`; `Bytes` has the byte ranges used throughout.

What the models take for granted:

- Mailbox: a client lends its reply and flag memory to one call at a time, and keeps it and its parameters until the
  call returns (parameters are only read, so calls may share them); the secure core takes pending slots only and answers each slot it took once; the message queue delivers each
  item once and holds as many requests as there are slots; locks and critical sections are atomic. Client memory that is
  not lent may change at any time. Bit 31 is treated like any other bit, also where the code shifts a signed 1
  (tfm_ns_mailbox.c:101, tfm_ns_mailbox_thread.c:102). The lock around a direct client call
  (tfm_ns_mailbox.c:202) is not relied on.
- Flash: an area starts at a program unit and lies in the device; the driver answers as it likes, call by call, and a
  failing call may leave anything in the bytes it was given. `boot_u32_safe_add` is not part of the repository; it is taken to detect wrap-around.
- Crypto: the backend may answer anything and may change only the context it is given; operation objects start zeroed
  and are not copied. A mapped buffer is the client's own memory.
- Firmware update: the bootloader may answer anything; it changes a staging area only when it is told to initialise,
  load into or clean it, not while it installs, accepts or rejects images; a load that does not fit the staging area
  fails; a failing load changes at most the bytes it was to store.
- Boot data: the data and the area lie in one 32-bit address space, so the length of the data plus four does not wrap
  around; an area with the magic number and a plausible length holds entries.
- Fault-injection counter: line 36 of fih.c relies on signed wrap-around, which C leaves undefined; the model takes the
  sum to wrap around.
- memcpy and memset: memory is indexed by address, so alignment is that of the index.

Where code and documentation or a standard disagree, the model follows the code:

- `flash_area_write` is documented for any alignment, but line 338 passes the beginning of the source for the whole
  units behind an unaligned head. `StoredData` is what the code stores, `WriteDelivers` tells exactly when this is
  the caller's data, and `WriteMisplaces` is an input for which it is not.
- On the path that copies results back on success only, a backend abort that fails releases the context but leaves the
  client's handle. `AgreesUnlessDetached` shows that this is the only exception, `StaleHandle` what it leads to.
- `boot_add_data_to_shared_area` compares unmasked types but stores masked ones: `AddKeepsUnique`.
- Section 7.24.6.1 of ISO/IEC 9899:2011 converts the argument of memset to unsigned char; the word pattern is built
  before that conversion: `MemsetIsByteLoop`.

## Model

| member | source | states |
|---|---|---|
| `MailboxThreadRuns.OwnReply` | src/interface/src/multi_core/tfm_ns_mailbox_thread.c:192-224 | a client call that returns success holds the reply the secure core computed, exactly once, for the call type, parameters and client id of that very call; in every interleaving of any number of clients, runner, reply interrupt and secure core |
| `MailboxThreadRuns.AnsweredOnce` | src/interface/src/multi_core/tfm_ns_mailbox_thread.c:254-321 | no call is answered twice in any run |
| `MailboxThreadRuns.NothingDropped` | src/interface/src/multi_core/tfm_ns_mailbox_thread.c:114-252 | a request taken from the message queue always gets a slot that is still empty: neither the null-pointer guard of the runner nor the full-queue return is ever taken |
| `MailboxThreadRuns.NothingLost` | src/interface/src/multi_core/tfm_ns_mailbox_thread.c:226-252 | every accepted request belongs to exactly one of a call still waiting and a call that has returned |
| `MailboxThreadRuns.OnlyRunnerClears` | src/interface/src/multi_core/tfm_ns_mailbox_thread.c:82-109 | the empty mask only grows, except in the runner's own step: the mask read in one locked section is still good in the next |
| `MailboxThreadRuns.SlotInOnePhase` | src/interface/src/multi_core/tfm_ns_mailbox_thread.c:77-112 | in every reachable state each slot is in exactly one of empty, being filled, pending, at the secure core, replied, captured, woken, and no mask has a bit beyond the slots |
| `MailboxThreadRuns.RunnerReadsLiveParams` | src/interface/src/multi_core/tfm_ns_mailbox_thread.c:131-142 | the runner dereferences a parameter pointer only while its call waits, and the message stored is what that call submitted |
| `MailboxThreadRuns.IsrWritesLiveReply` | src/interface/src/multi_core/tfm_ns_mailbox_thread.c:162-172 | the interrupt handler writes a reply only into the buffer of a call that is still waiting; stale pointers in empty slots are never followed |
| `MailboxThreadRuns.IsrRaisesLiveFlag` | src/interface/src/multi_core/tfm_ns_mailbox_thread.c:290-308 | a woken flag is raised only for a waiting call, after its reply is in its buffer and before its slot becomes empty |
| `MailboxThreadRuns.RunInv` | src/interface/src/multi_core/tfm_ns_mailbox_thread.c:192-321 | the protocol invariant holds in every state of every run |
| `MailboxThread.StepInv` | src/interface/src/multi_core/tfm_ns_mailbox_thread.c:192-321 | every step of every participant keeps the invariant |
| `MailboxThread.InitialInv` | src/interface/src/multi_core/tfm_ns_mailbox_thread.c:334-357 | the state after initialisation satisfies the invariant |
| `MailboxThread.ScanFinds` | src/interface/src/multi_core/tfm_ns_mailbox_thread.c:101-109 | the scan of the mask read earlier finds a slot, and the slot is still empty when its bit is cleared |
| `MailboxThreadSteps.ClientEnters` | src/interface/src/multi_core/tfm_ns_mailbox_thread.c:192-221 | a send that the queue accepts puts exactly this request at its end and the call waits with what was submitted; a null pointer or a refused send changes nothing |
| `MailboxThreadSteps.ClientLeaves` | src/interface/src/multi_core/tfm_ns_mailbox_thread.c:174-190 | a call returns only after its flag is raised, with what its reply buffer holds |
| `MailboxThreadSteps.RunnerReceives` | src/interface/src/multi_core/tfm_ns_mailbox_thread.c:235-250 | the runner takes the first request of the queue and no other |
| `MailboxThreadSteps.RunnerReads` | src/interface/src/multi_core/tfm_ns_mailbox_thread.c:82-97 | the runner goes on with exactly the mask it reads if that names a slot, and otherwise flags the queue full and sleeps |
| `MailboxThreadSteps.RunnerWakes` | src/interface/src/multi_core/tfm_ns_mailbox_thread.c:96-98 | woken, it clears the flag and reads again |
| `MailboxThreadSteps.RunnerClaims` | src/interface/src/multi_core/tfm_ns_mailbox_thread.c:101-109 | the lowest slot of the mask read earlier leaves the empty mask, and no other |
| `MailboxThreadSteps.RunnerFillsMessage` | src/interface/src/multi_core/tfm_ns_mailbox_thread.c:131-136 | the message in the slot is the one the call submitted; everything else in the queue is kept |
| `MailboxThreadSteps.RunnerFillsPointers` | src/interface/src/multi_core/tfm_ns_mailbox_thread.c:138-142 | owner, reply pointer and flag pointer of the slot are those of the call |
| `MailboxThreadSteps.RunnerPends` | src/interface/src/multi_core/tfm_ns_mailbox_thread.c:149-151 | the slot becomes pending and the runner is ready for the next request |
| `MailboxThreadSteps.IsrCaptures` | src/interface/src/multi_core/tfm_ns_mailbox_thread.c:265-271 | the handler takes the whole replied mask, or stops if it is zero |
| `MailboxThreadSteps.IsrCopies` | src/interface/src/multi_core/tfm_ns_mailbox_thread.c:162-172 | the reply of the lowest captured slot is stored through its pointer |
| `MailboxThreadSteps.IsrWakes` | src/interface/src/multi_core/tfm_ns_mailbox_thread.c:292-302 | the flag of the same slot is raised, and the owner to wake is the one that made the call |
| `MailboxThreadSteps.IsrFinishes` | src/interface/src/multi_core/tfm_ns_mailbox_thread.c:308-308 | all completed slots become empty and no others |
| `MailboxThreadSteps.SecureActs` | src/interface/src/multi_core/tfm_ns_mailbox_thread.c:254-267 | what the secure core is taken to do between pending and replied |
| `MailboxMasks.QueueMasks.constructor` | src/interface/src/multi_core/tfm_ns_mailbox_thread.c:351-357 | all slots and no others are empty after initialisation, up to 32 slots |
| `MailboxMasks.QueueMasks.ClearQueueSlotEmpty` | src/interface/include/multi_core/tfm_ns_mailbox.h:382-390 | removes exactly the slot from the empty set; an index past the end changes nothing |
| `MailboxMasks.QueueMasks.SetQueueSlotPend` | src/interface/include/multi_core/tfm_ns_mailbox.h:399-409 | adds exactly the slot to the pending set |
| `MailboxMasks.QueueMasks.SetQueueSlotEmpty` | src/interface/src/multi_core/tfm_ns_mailbox.c:28-37 | adds exactly the slot to the empty set |
| `MailboxMasks.QueueMasks.SetQueueSlotAllEmpty` | src/interface/src/multi_core/tfm_ns_mailbox_thread.c:61-68 | adds exactly the completed slots to the empty set |
| `MailboxMasks.QueueMasks.ClearQueueSlotAllReplied` | src/interface/include/multi_core/tfm_ns_mailbox.h:411-423 | hands out all replied bits and leaves none |
| `MailboxMasks.QueueMasks.AllQueueSlotsEmpty` | src/interface/include/multi_core/tfm_ns_mailbox.h:392-397 | true exactly when every slot of the queue is empty, also for 32 slots |
| `MailboxMasks.QueueMasks.LowestSlot` | src/interface/src/multi_core/tfm_ns_mailbox_thread.c:101-105 | the loop over the bits finds the lowest set slot, or the slot count |
| `MailboxMasks.QueueMasks.AcquireEmptySlot` | src/interface/src/multi_core/tfm_ns_mailbox.c:86-110 | claims the lowest empty slot and nothing else; reports the slot count exactly when none is empty |
| `MailboxQueue.NsMailboxQueue.SetReplyIsr` | src/interface/src/multi_core/tfm_ns_mailbox_thread.c:162-172 | stores the slot's reply through the stored pointer unless it is null |
| `MailboxQueue.NsMailboxQueue.SetQueueSlotWoken` | src/interface/src/multi_core/tfm_ns_mailbox_thread.c:70-75 | raises the flag the slot points to |
| `MailboxQueue.NsMailboxQueue.HandleReplied` | src/interface/src/multi_core/tfm_ns_mailbox_thread.c:273-306 | the loop over captured slots performs only interrupt steps of the protocol and completes every captured slot |
| `MailboxQueue.NsMailboxQueue.CaptureReplied` | src/interface/src/multi_core/tfm_ns_mailbox_thread.c:265-267 | the critical section takes all replied bits, as the first step of the protocol's handler |
| `MailboxQueue.NsMailboxQueue.ReleaseCompleted` | src/interface/src/multi_core/tfm_ns_mailbox_thread.c:308-308 | the completed slots become empty, as its last step |
| `MailboxQueue.NsMailboxQueue.WakeReplyOwnerIsr` | src/interface/src/multi_core/tfm_ns_mailbox_thread.c:254-321 | the handler on the bit masks refines the protocol: it is a sequence of interrupt steps, after which every replied slot is empty and no reply is left |
| `SlotMask.AllSlotsIsBelow` | src/interface/src/multi_core/tfm_ns_mailbox.c:350-354 | the sum of the two shifted constants has exactly the low N bits set, for N from 1 to 32 |
| `SlotMask.AllSlotsFits` | src/interface/src/multi_core/tfm_ns_mailbox.c:350-354 | neither summand nor the sum overflows the word, even when all its bits are slots |
| `SlotMask.CoversAllSlots` | src/interface/include/multi_core/tfm_ns_mailbox.h:392-397 | the masked comparison tests that all slots are empty |
| `MailboxDirectRuns.OwnReply` | src/interface/src/multi_core/tfm_ns_mailbox.c:186-223 | a successful client call holds the reply computed, once, for the message it put in its slot, with an operating system or polling |
| `MailboxDirectRuns.SlotInOnePhase` | src/interface/src/multi_core/tfm_ns_mailbox.c:86-184 | each slot is in exactly one phase in every reachable state |
| `MailboxDirectRuns.SlotIsExclusive` | src/interface/src/multi_core/tfm_ns_mailbox.c:119-162 | no slot is held by two calls |
| `MailboxDirectRuns.NothingLost` | src/interface/src/multi_core/tfm_ns_mailbox.c:186-223 | every call that was given a slot is either in progress or has returned |
| `MailboxDirectRuns.AnsweredOnce` | src/interface/src/multi_core/tfm_ns_mailbox.c:226-268 | no call is answered twice |
| `MailboxDirectRuns.RunInv` | src/interface/src/multi_core/tfm_ns_mailbox.c:186-329 | the invariant holds in every state of every run |
| `MailboxDirect.StepInv` | src/interface/src/multi_core/tfm_ns_mailbox.c:186-329 | every step keeps the invariant, including polling of the replied mask without an operating system |
| `MailboxDirect.InitialInv` | src/interface/src/multi_core/tfm_ns_mailbox.c:331-356 | the state after initialisation satisfies the invariant |
| `MailboxDirectSteps.ClientClaims` | src/interface/src/multi_core/tfm_ns_mailbox.c:86-110 | a client claims the lowest empty slot, or nothing changes |
| `MailboxDirectSteps.ClientFills` | src/interface/src/multi_core/tfm_ns_mailbox.c:138-151 | message and owner of the slot become those of the call |
| `MailboxDirectSteps.ClientPends` | src/interface/src/multi_core/tfm_ns_mailbox.c:153-155 | the slot becomes pending and the call waits |
| `MailboxDirectSteps.ClientSees` | src/interface/src/multi_core/tfm_ns_mailbox.c:270-301 | the wait ends on the woken mark or the replied bit, which is taken back |
| `MailboxDirectSteps.ClientCollects` | src/interface/src/multi_core/tfm_ns_mailbox.c:164-184 | the reply is copied out and the owner cleared; then the slot becomes empty and the call returns that reply |
| `MailboxDirectSteps.IsrCaptures` | src/interface/src/multi_core/tfm_ns_mailbox.c:236-242 | the handler takes the whole replied mask, or stops if it is zero |
| `MailboxDirectSteps.IsrWakes` | src/interface/src/multi_core/tfm_ns_mailbox.c:244-259 | the lowest captured slot is marked woken, and its owner, who is woken, is the one whose call it serves |
| `MailboxDirectSteps.SecureActs` | src/interface/src/multi_core/tfm_ns_mailbox.c:226-238 | what the secure core is taken to do between pending and replied |
| `MailboxDirectQueue.DirectQueue.Acquire` | src/interface/src/multi_core/tfm_ns_mailbox.c:86-110 | the locked section on the masks is the claiming step of the protocol; it reports a full queue exactly when no slot is empty |
| `MailboxDirectQueue.DirectQueue.FillMessage` | src/interface/src/multi_core/tfm_ns_mailbox.c:138-144 | filling the message is its step of the protocol |
| `MailboxDirectQueue.DirectQueue.SetMsgOwner` | src/interface/src/multi_core/tfm_ns_mailbox.c:112-117 | the slot's owner becomes the given task and nothing else changes, as the step of the protocol |
| `MailboxDirectQueue.DirectQueue.MakeSlotPending` | src/interface/src/multi_core/tfm_ns_mailbox.c:153-155 | the critical section is the step that makes the slot pending |
| `MailboxDirectQueue.DirectQueue.WaitReplySignal` | src/interface/src/multi_core/tfm_ns_mailbox.c:270-284 | reports a woken slot exactly when the client's step is enabled, and performs it |
| `MailboxDirectQueue.DirectQueue.PollReplySignal` | src/interface/src/multi_core/tfm_ns_mailbox.c:286-301 | the same for polling of the replied mask |
| `MailboxDirectQueue.DirectQueue.CollectReplyOf` | src/interface/src/multi_core/tfm_ns_mailbox.c:164-172 | the reply handed out is the one the protocol says the call collects |
| `MailboxDirectQueue.DirectQueue.ReleaseSlot` | src/interface/src/multi_core/tfm_ns_mailbox.c:174-181 | the locked section is the step that returns the slot |
| `MailboxDirectQueue.DirectQueue.WakeReplyOwnerIsr` | src/interface/src/multi_core/tfm_ns_mailbox.c:226-268 | the handler is the capturing step and then one waking step for each captured slot; exactly the replied slots are marked woken |
| `MailboxDirectQueue.DirectQueue.WakeCaptured` | src/interface/src/multi_core/tfm_ns_mailbox.c:244-265 | the loop with its early exit performs all waking steps |
| `FlashMap.IsRangeValid` | src/bl2/src/flash_map.c:49-68 | the 32-bit range test is the exact integer comparison |
| `FlashMap.Flash.FlashAreaRead` | src/bl2/src/flash_map.c:113-219 | for every offset, length and item size: it returns 0 exactly when the range is valid and no driver call fails, and a failing driver call's own result otherwise; the buffer then holds exactly the flash bytes of the range; an invalid range is refused untouched and without driver calls; bytes past the length are kept; every driver read is aligned |
| `FlashMap.Flash.ReadParts` | src/bl2/src/flash_map.c:163-209 | head, whole items and tail tile the range; it fails exactly when a driver call fails |
| `FlashMap.Flash.ReadRest` | src/bl2/src/flash_map.c:183-209 | whole items and tail complete the range; it fails exactly when a driver call fails |
| `FlashMap.Flash.ReadHead` | src/bl2/src/flash_map.c:163-181 | one driver call, whose result is returned; the first partial item contributes its wanted bytes only |
| `FlashMap.Flash.ReadItems` | src/bl2/src/flash_map.c:183-197 | one driver call, whose result is returned; whole items go straight into the buffer |
| `FlashMap.Flash.ReadTail` | src/bl2/src/flash_map.c:198-209 | one driver call, whose result is returned; the last partial item contributes its wanted bytes only |
| `FlashMap.Flash.FlashAreaWrite` | src/bl2/src/flash_map.c:224-378 | for every offset, length and program unit: it succeeds exactly when the last program unit ends inside the area, the aligned length fits 32 bits and no driver call fails; success changes the device in exactly the given range, to `StoredData`; no internal consistency check ever fails; a refused call changes nothing; a failing one disturbs only the units it addresses; every driver call is aligned to and sized in program units |
| `FlashMap.FitsByRange` | src/bl2/src/flash_map.c:278-289 | for units that divide the address space, as powers of two do, a write fits exactly when its last unit ends inside the area; a 32-bit wrap-around never occurs for a write that fits |
| `FlashMap.Flash.Prepare` | src/bl2/src/flash_map.c:261-289 | the padding read around the data is the old content of the first and last unit; it succeeds exactly when the write fits and no read fails |
| `FlashMap.Flash.ReadBehind` | src/bl2/src/flash_map.c:278-289 | the same for the padding behind the data, with lengths computed in 32 bits |
| `FlashMap.Flash.WriteHead` | src/bl2/src/flash_map.c:291-321 | the first unit keeps its old bytes around the data; it fails exactly when the driver does |
| `FlashMap.Flash.BuildHead` | src/bl2/src/flash_map.c:293-315 | the checks at lines 307 and 313 cannot fail |
| `FlashMap.Flash.WriteMiddle` | src/bl2/src/flash_map.c:334-344 | whole units are programmed from the beginning of the source; it fails exactly when the driver does |
| `FlashMap.Flash.WriteTail` | src/bl2/src/flash_map.c:346-374 | the last unit keeps its old bytes behind the data; it fails exactly when the driver does |
| `FlashMap.Flash.BuildTail` | src/bl2/src/flash_map.c:348-367 | the checks at lines 354 and 364 cannot fail |
| `FlashMap.PaddingIs` | src/bl2/src/flash_map.c:278-280 | the padding length computed in 32 bits is below a unit and ends the last unit, or the sum wrapped around |
| `FlashMap.WriteDelivers` | src/bl2/src/flash_map.c:334-344 | writes of this offset and length deliver all data exactly when the offset is aligned or no whole unit follows the first |
| `FlashMap.WriteKeeps` | src/bl2/src/flash_map.c:334-344 | one buffer survives exactly when the bytes behind its head repeat its beginning |
| `FlashMap.WriteMisplaces` | src/bl2/src/flash_map.c:336-339 | a write of six bytes at offset 3 with units of four bytes that leaves wrong bytes in the flash |
| `Align.MaskIsFloor` | src/bl2/src/flash_map.c:25-25 | on powers of two the bit mask computes the greatest multiple not above the value |
| `CryptoTable.AllocRefines` | src/secure_fw/partitions/crypto/crypto_alloc.c:81-117 | allocation adds one live handle with an all-zero context to the abstract map, exactly when the caller's handle is clear and a handle is free |
| `CryptoTable.ReleaseRefines` | src/secure_fw/partitions/crypto/crypto_alloc.c:119-150 | release removes exactly a live handle of the caller, clears the entry and always clears the handle |
| `CryptoTable.FoundRefines` | src/secure_fw/partitions/crypto/crypto_alloc.c:152-181 | lookup succeeds exactly for live handles of the caller and the type |
| `CryptoTable.OthersUntouched` | src/secure_fw/partitions/crypto/crypto_hash.c:65-187 | whatever a client requests, entries of other clients do not change, and changed entries are its own |
| `CryptoTable.ShimKeepsClean` | src/secure_fw/partitions/crypto/crypto_alloc.c:60-65 | free entries stay all zero, without owner and type |
| `CryptoTable.ShimRefuses` | src/secure_fw/partitions/crypto/crypto_hash.c:65-110 | what a shim answers, without changing anything, to a request it cannot serve: missing buffer, dead or foreign handle, handle in the way, no free entry, unknown function; only abort takes a dead handle for success |
| `CryptoService.OperationTable.AllocOperation` | src/secure_fw/partitions/crypto/crypto_alloc.c:81-117 | the search loop takes the first free entry |
| `CryptoService.OperationTable.ReleaseOperation` | src/secure_fw/partitions/crypto/crypto_alloc.c:119-150 | the in-place release is that of the specification |
| `CryptoService.OperationTable.LookupOperation` | src/secure_fw/partitions/crypto/crypto_alloc.c:152-181 | the in-place lookup is that of the specification |
| `CryptoService.OperationTable.HashInterface` | src/secure_fw/partitions/crypto/crypto_hash.c:65-187 | the hash shim, clone included, does what the common specification of shims says |
| `CryptoService.OperationTable.MultipartInterface` | src/secure_fw/partitions/crypto/crypto_aead.c:94-254 | the control flow shared by the AEAD, cipher and MAC shims meets the same specification |
| `CryptoService.OperationTable.KeyDerivationInterface` | src/secure_fw/partitions/crypto/crypto_key_derivation.c:52-185 | the key derivation shim, which treats abort differently, meets the same specification |
| `CryptoRuns.AgreesUnlessDetached` | src/secure_fw/partitions/crypto/crypto_init.c:238-254 | over every run of calls by any clients, non-zero handles and entries in use are in one-to-one correspondence in all states exactly when no call of the run is an abort that fails in the backend on the copy-back path |
| `CryptoRuns.MappedNeverDetaches` | src/secure_fw/partitions/crypto/crypto_init.c:238-243 | with mapped buffers no call is |
| `CryptoRuns.RunRefines` | src/secure_fw/partitions/crypto/crypto_hash.c:65-187 | every such run gives the same answers and states as if each operation object carried its own context |
| `CryptoRuns.StepRefines` | src/secure_fw/partitions/crypto/crypto_init.c:238-254 | one call keeps the correspondence exactly unless it is a failing backend abort on the copy-back path, and then acts as in the simple form |
| `CryptoRuns.AbortRefines` | src/secure_fw/partitions/crypto/crypto_hash.c:150-154 | the same for abort, where the exception lies |
| `CryptoRuns.CloneRefines` | src/secure_fw/partitions/crypto/crypto_hash.c:155-177 | clone starts the target with the cloned context and leaves the source alone |
| `CryptoRuns.FullIffAllActive` | src/secure_fw/partitions/crypto/crypto_alloc.c:105-116 | contexts run out exactly when as many objects are active as there are contexts |
| `CryptoRuns.NothingLeaks` | src/secure_fw/partitions/crypto/crypto_alloc.c:119-150 | after any run, if all objects are idle, every context is free and all zero |
| `CryptoRuns.StaleHandle` | src/secure_fw/partitions/crypto/crypto_init.c:245-254 | a run on the copy-back path in which a failing abort makes two objects share one context |
| `CryptoScratch.Scratch.CallSrv` | src/secure_fw/partitions/crypto/crypto_init.c:197-257 | however a request ends, the scratch memory is all zero and its index 0, whatever the service left in its output buffers; the status depends only on sizes and the service; on success the client gets exactly the reported part of every output |
| `CryptoScratch.ServiceAnswers` | src/secure_fw/partitions/crypto/crypto_init.c:205-231 | the status in terms of the message: generic error for no input or a short first one, too little memory if the other buffers, rounded up to four bytes, do not fit, otherwise the service's answer |
| `CryptoScratch.Scratch.InitIovecs` | src/secure_fw/partitions/crypto/crypto_init.c:156-194 | succeeds exactly when all buffers fit; then every input lies in its own place and every output buffer is zero |
| `CryptoScratch.Scratch.AllocScratch` | src/secure_fw/partitions/crypto/crypto_init.c:115-136 | bump allocation without overflow or underflow: aligned, within the buffer, nothing touched above the index |
| `CryptoScratch.Scratch.ClearScratch` | src/secure_fw/partitions/crypto/crypto_init.c:138-143 | clearing up to the index clears everything |
| `CryptoScratch.PlacesDisjoint` | src/secure_fw/partitions/crypto/crypto_init.c:115-136 | the buffers of one request do not overlap and lie within the allocated part |
| `CryptoScratch.TrimSizes` | src/secure_fw/partitions/crypto/crypto_init.c:205-213 | the loops drop exactly the trailing empty vectors |
| `FirmwareUpdateRuns.RequestMoves` | src/secure_fw/partitions/firmware_update/tfm_fwu_req_mngr.c:38-504 | every request moves every component along its own edges or not at all, and a component is in use exactly when it is not ready |
| `FirmwareUpdateRuns.RunKeepsValid` | src/secure_fw/partitions/firmware_update/tfm_fwu_req_mngr.c:38-504 | so it is after every run, whatever the bootloader answers |
| `FirmwareUpdateRuns.MoveIsEdge` | src/secure_fw/partitions/firmware_update/tfm_fwu_req_mngr.c:38-504 | all moves lie in one fixed edge relation, in which the rejected state has no successor |
| `FirmwareUpdateAnswers.StartAnswers` | src/secure_fw/partitions/firmware_update/tfm_fwu_req_mngr.c:38-98 | start succeeds exactly for an existing component that is ready in the service and by the bootloader's word, with a manifest that fits and a staging area that initialises; the status of each refusal |
| `FirmwareUpdateRuns.StartInitialises` | src/secure_fw/partitions/firmware_update/tfm_fwu_req_mngr.c:72-97 | a start that succeeds has initialised the staging area of a component that was ready |
| `FirmwareUpdateAnswers.WriteAnswers` | src/secure_fw/partitions/firmware_update/tfm_fwu_req_mngr.c:100-164 | write succeeds exactly for a component being written, with a block that is not too large and that the bootloader stores inside the area piece by piece; it is then one store; the status of each refusal |
| `FirmwareUpdateAnswers.FinishAnswers` | src/secure_fw/partitions/firmware_update/tfm_fwu_req_mngr.c:166-190 | finish succeeds exactly for a component being written, which becomes a candidate |
| `FirmwareUpdateAnswers.CancelAnswers` | src/secure_fw/partitions/firmware_update/tfm_fwu_req_mngr.c:437-467 | cancel succeeds exactly for a component being written or a candidate, which fails with error 0 |
| `FirmwareUpdateAnswers.CleanAnswers` | src/secure_fw/partitions/firmware_update/tfm_fwu_req_mngr.c:469-504 | clean concerns exactly failed and updated components, answers as the bootloader does, and on success makes them ready |
| `FirmwareUpdateAnswers.InstallReaches` | src/secure_fw/partitions/firmware_update/tfm_fwu_req_mngr.c:192-233 | installation reaches the bootloader exactly when no component in use is staged or rejected, all others are answered for and not in trial, and there is a candidate; the status of each refusal |
| `FirmwareUpdateAnswers.InstallMoves` | src/secure_fw/partitions/firmware_update/tfm_fwu_req_mngr.c:227-254 | candidates become trial (or updated in a build without trial) on success, staged if a reboot or restart is needed, failed with the error on others, and stay on a missing dependency |
| `FirmwareUpdateAnswers.AcceptAnswers` | src/secure_fw/partitions/firmware_update/tfm_fwu_req_mngr.c:307-353 | the exact status of accept and the context of every component after it, for every bootloader |
| `FirmwareUpdateAnswers.RejectAnswers` | src/secure_fw/partitions/firmware_update/tfm_fwu_req_mngr.c:355-435 | the status of reject: the failing answer if the bootloader does not answer, otherwise a bad state exactly if there was nothing to reject |
| `FirmwareUpdateAnswers.QueryAnswers` | src/secure_fw/partitions/firmware_update/tfm_fwu_req_mngr.c:256-298 | a query changes nothing |
| `FirmwareUpdateRuns.RejectedForGood` | src/secure_fw/partitions/firmware_update/tfm_fwu_req_mngr.c:203-207 | once rejected, a component stays rejected through every run, and every later installation is refused, with a bad state or the bootloader's own error, and changes nothing |
| `FirmwareUpdateRuns.InstallRefused` | src/secure_fw/partitions/firmware_update/tfm_fwu_req_mngr.c:203-207 | a staged or rejected component refuses installation |
| `FirmwareUpdateRuns.InstallAllOrNone` | src/secure_fw/partitions/firmware_update/tfm_fwu_req_mngr.c:192-254 | installation changes nothing, or moves every candidate to one common state and no other component |
| `FirmwareUpdate.CandidatesExact` | src/secure_fw/partitions/firmware_update/tfm_fwu_req_mngr.c:203-228 | the list given to the bootloader is exactly the set of candidates in strictly increasing order |
| `FirmwareUpdateRuns.AcceptTakesAll` | src/secure_fw/partitions/firmware_update/tfm_fwu_req_mngr.c:307-353 | a successful accept updates every component in trial, by context or by the bootloader's word, and no other |
| `FirmwareUpdateRuns.RejectStops` | src/secure_fw/partitions/firmware_update/tfm_fwu_req_mngr.c:355-435 | for every bootloader: all components up to the first about which the bootloader does not answer are dealt with (staged ones failed, those in trial rejected, failed or kept in trial as it says, with the error recorded, others as they were), those behind it are untouched |
| `FirmwareUpdateRuns.PiecesAreOneStore` | src/secure_fw/partitions/firmware_update/tfm_fwu_req_mngr.c:144-161 | writing a block in pieces has the effect of one store |
| `FirmwareUpdateRuns.PiecesStayInBlock` | src/secure_fw/partitions/firmware_update/tfm_fwu_req_mngr.c:144-161 | a write, also a failing one, leaves the rest of the area alone |
| `FirmwareUpdateRuns.StagingFrozen` | src/secure_fw/partitions/firmware_update/tfm_fwu_req_mngr.c:100-190 | only start of a ready component, write in the writing state and clean of a finished one touch a staging area: from finish to installation it is frozen |
| `FirmwareUpdateRuns.InstalledAsWritten` | src/secure_fw/partitions/firmware_update/tfm_fwu_req_mngr.c:100-254 | over every run the staging area holds exactly the initial content overlaid with the successful writes since start |
| `FirmwareUpdateRuns.FromPowerUp` | src/secure_fw/partitions/firmware_update/tfm_fwu_req_mngr.c:23-32 | both from the state after power-up: in use exactly when not ready, and staging areas as written |
| `FirmwareUpdateService.UpdateService.StartUpdate` | src/secure_fw/partitions/firmware_update/tfm_fwu_req_mngr.c:38-98 | the handler on the context array meets the specification |
| `FirmwareUpdateService.UpdateService.WriteBlock` | src/secure_fw/partitions/firmware_update/tfm_fwu_req_mngr.c:100-164 | likewise |
| `FirmwareUpdateService.UpdateService.WritePieces` | src/secure_fw/partitions/firmware_update/tfm_fwu_req_mngr.c:144-161 | the loop over pieces of the block buffer meets its recursive specification |
| `FirmwareUpdateService.UpdateService.FinishWriting` | src/secure_fw/partitions/firmware_update/tfm_fwu_req_mngr.c:166-190 | the handler meets the specification |
| `FirmwareUpdateService.UpdateService.InstallUpdates` | src/secure_fw/partitions/firmware_update/tfm_fwu_req_mngr.c:192-254 | the two loops meet the specification, and the bootloader is called with the exact candidate list |
| `FirmwareUpdateService.UpdateService.CollectCandidates` | src/secure_fw/partitions/firmware_update/tfm_fwu_req_mngr.c:203-220 | the first loop collects the candidates or stops at the first refusal |
| `FirmwareUpdateService.UpdateService.MoveCandidates` | src/secure_fw/partitions/firmware_update/tfm_fwu_req_mngr.c:235-252 | the second loop moves the candidates and nothing else |
| `FirmwareUpdateService.UpdateService.AcceptUpdates` | src/secure_fw/partitions/firmware_update/tfm_fwu_req_mngr.c:307-353 | the handler meets the specification |
| `FirmwareUpdateService.UpdateService.RejectUpdates` | src/secure_fw/partitions/firmware_update/tfm_fwu_req_mngr.c:355-435 | the handler with its early returns meets the specification |
| `FirmwareUpdateService.UpdateService.CancelUpdate` | src/secure_fw/partitions/firmware_update/tfm_fwu_req_mngr.c:437-467 | the handler meets the specification |
| `FirmwareUpdateService.UpdateService.CleanComponent` | src/secure_fw/partitions/firmware_update/tfm_fwu_req_mngr.c:469-504 | the handler meets the specification |
| `DependencyCheck.Checker.CheckCircularDependency` | src/tools/tfm_parse_manifest_list.py:198-223 | an error is reported exactly when the dependency graph has a cycle, self-dependencies included, for every finite graph |
| `DependencyCheck.Checker.ValidateChain` | src/tools/tfm_parse_manifest_list.py:225-249 | the search with a chain that is never shortened terminates, reports only real cycles, and otherwise validates the partition |
| `DependencyCheck.OrderedIsAcyclic` | src/tools/tfm_parse_manifest_list.py:225-249 | the order of validation is an order of dependence, which rules out cycles |
| `StatelessHandles.ProcessStatelessServices` | src/tools/tfm_parse_manifest_list.py:627-693 | the tool accepts exactly the manifests with at most 32 services, valid and distinct numbers; every service then has exactly one slot, numbered ones their own, the others the first free slots in order, and the handle value of its slot and version |
| `StatelessHandles.SortServices` | src/tools/tfm_parse_manifest_list.py:641-662 | the first pass places the numbered services and keeps the others in order, or refuses |
| `StatelessHandles.FillSlots` | src/tools/tfm_parse_manifest_list.py:672-691 | the second pass hands the free slots out one after another and encodes the value of every occupied slot |
| `StatelessHandles.HandleWordIs` | src/tools/tfm_parse_manifest_list.py:681-687 | the value put together from zero, slot number, indicator and version is the encoding |
| `StatelessHandles.ValuesDistinct` | src/tools/tfm_parse_manifest_list.py:672-691 | no two services of a list have the same handle value |
| `StatelessHandles.EveryServicePlaced` | src/tools/tfm_parse_manifest_list.py:672-691 | no waiting service is dropped: there is a free slot for each |
| `StatelessHandles.EncodeJoins` | src/tools/tfm_parse_manifest_list.py:664-689 | the bitwise or of slot number, indicator and shifted version is their sum |
| `StatelessHandles.EncodeDecodes` | src/tools/tfm_parse_manifest_list.py:683-689 | slot number, version modulo 256 and indicator can be read back from the value |
| `StatelessHandles.EncodeDistinct` | src/tools/tfm_parse_manifest_list.py:683-689 | equal values come from equal slots and equal versions modulo 256 |
| `BootDataArea.SharedArea.AddData` | src/platform/ext/common/boot_hal_bl2.c:254-318 | a successful call turns the list of entries into the list plus the new entry, a failing one keeps it; it fails exactly on a present type or lack of room; bytes of earlier entries do not change |
| `BootDataArea.FindType` | src/platform/ext/common/boot_hal_bl2.c:285-294 | the walk over the area finds an entry of the type exactly when the list has one |
| `BootDataArea.SharedArea.StoreMeasurement` | src/platform/ext/common/boot_hal_bl2.c:320-353 | metadata, then value, as on lists |
| `BootData.OneList` | src/secure_fw/spm/include/boot/tfm_boot_status.h:156-191 | the bytes of an area stand for at most one list of entries |
| `BootData.PrintInjective` | src/secure_fw/spm/include/boot/tfm_boot_status.h:170-182 | printing entries loses nothing |
| `BootData.PrintHas` | src/secure_fw/spm/include/boot/tfm_boot_status.h:170-195 | entries tile the area, each where the lengths before it put it |
| `BootData.AddKeepsUnique` | src/platform/ext/common/boot_hal_bl2.c:288-297 | adding keeps types unique for every list exactly when major and minor type fit their fields, since only the stored type is masked |
| `BootData.OneValueAlways` | src/platform/ext/common/boot_hal_bl2.c:320-353 | over any run of measurements, with any other entries added in between, each slot has at most one value record, locked or not |
| `BootDataAnswers.AddAnswers` | src/platform/ext/common/boot_hal_bl2.c:282-318 | an entry is added exactly when its type is new and there is room; it is then the last one, with the given data and the masked type |
| `BootDataAnswers.StoreAnswers` | src/platform/ext/common/boot_hal_bl2.c:320-353 | a measurement is stored exactly when slot, pointers and room allow and the slot has neither metadata nor such a value; it then is two entries: metadata 0x0A, and value 0x0B if locked, 0x08 if not, of the slot masked to six bits |
| `BootDataAnswers.LockedForGood` | src/platform/ext/common/boot_hal_bl2.c:344-352 | a slot whose value was stored locked keeps it and never has an extendable one, whatever is added later |
| `BootDataAnswers.TypeFields` | src/secure_fw/spm/include/boot/tfm_boot_status.h:97-128 | the positions of major type, slot or module, and claim in a type |
| `BootDataAnswers.AreaBytes` | src/secure_fw/spm/include/boot/tfm_boot_status.h:153-168 | the bytes of the header: 0x2016 and the total length, low bytes first |
| `BootDataAnswers.EntryLayout` | src/secure_fw/spm/include/boot/tfm_boot_status.h:170-195 | the bytes of every entry: type, length and data |
| `BootData.StoreKeepsOneValue` | src/platform/ext/common/boot_hal_bl2.c:320-353 | one call keeps it so, because the metadata record blocks a second value |
| `BootDataArea.GetTlvByModule` | src/secure_fw/partitions/initial_attestation/attest_boot_data.c:164-207 | the reader returns the next entry of the module behind the cursor, with claim, length and data, or says that there is none |
| `BootData.VisitsModule` | src/secure_fw/partitions/initial_attestation/attest_boot_data.c:164-207 | asked again and again, it visits exactly the entries of the module, in order, and ends |
| `BootDataArea.EncodeComponents` | src/secure_fw/partitions/initial_attestation/attest_boot_data.c:306-333 | the loop over modules collects exactly the leading boot records, in module order |
| `BootDataAnswers.RecordsAre` | src/secure_fw/partitions/initial_attestation/attest_boot_data.c:306-333 | these are exactly the leading boot records of the modules, each once, in the order of the modules |
| `ControlFlow.SoundCall` | src/lib/fih/inc/fih.h:417-438 | in every call tree whose functions return once and take all declared steps, or reset after an error, FIH_CALL does not panic and restores the counter, if the counter has room |
| `ControlFlow.SoundCallOverflows` | src/lib/fih/src/fih.c:27-46 | without that room the call panics on overflow: the bound is exact |
| `ControlFlow.FaultCaught` | src/lib/fih/inc/fih.h:337-438 | an omitted body, any number of omitted steps or an omitted return in one call anywhere in the tree makes the check behind the innermost call around it panic |
| `ControlFlow.TamperingNoticed` | src/lib/fih/inc/fih.h:208-215 | changing one half of a masked integer is always noticed |
| `ControlFlow.EncodeIntact` | src/lib/fih/inc/fih.h:227-231 | an encoded integer passes the check |
| `ControlFlow.XorBits` | src/lib/fih/inc/fih.h:208-231 | the masked copy is the bitwise exclusive or |
| `ControlFlow.Cfi.GetAndIncrement` | src/lib/fih/src/fih.c:27-46 | increases the counter, or panics exactly if the counter has been tampered with, is negative or would overflow |
| `ControlFlow.Cfi.DecrementCounter` | src/lib/fih/src/fih.c:55-64 | decreases the counter, or panics exactly if it has been tampered with or is below one |
| `ControlFlow.Cfi.ValidateCounter` | src/lib/fih/src/fih.c:48-53 | passes exactly when counter and saved value are intact and equal |
| `ControlFlow.Cfi.ExecItem` | src/lib/fih/inc/fih.h:417-427 | FIH_CALL on the counter in memory does what the model of call trees says |
| `ControlFlow.Cfi.ExecFun` | src/lib/fih/inc/fih.h:361-382 | likewise steps, error reset and FIH_RET |
| `MemoryFunctions.Memory.Memcpy` | src/secure_fw/shared/crt_memcpy.c:13-41 | on ranges that do not overlap, for every alignment and length, exactly the byte loop; word accesses only at aligned addresses |
| `MemoryFunctions.Memory.Memset` | src/secure_fw/shared/crt_memset.c:10-34 | leaves bytes, words of the pattern and bytes in the range and changes nothing else; word accesses only at aligned addresses |
| `MemoryFunctions.FilledPlaces` | src/secure_fw/shared/crt_memset.c:19-31 | the byte at each place: that of the pattern where the whole aligned word lies in the range, otherwise the lowest byte of the argument |
| `MemoryFunctions.PatternBytes` | src/secure_fw/shared/crt_memset.c:16-17 | the bytes of the pattern as bitwise ors of the bytes of the argument |
| `MemoryFunctions.OrBitsAt` | src/secure_fw/shared/crt_memset.c:16-17 | bit by bit |
| `MemoryFunctions.MemsetIsByteLoop` | src/secure_fw/shared/crt_memset.c:10-34 | equals the byte loop for every address and length exactly when the higher bytes of the argument add no bit to the lowest |
| `MemoryFunctions.UnsignedCharIsOneByte` | src/secure_fw/shared/crt_memset.c:16-17 | which all values of an unsigned char satisfy |
| `MemoryFunctions.MemsetOf256` | src/secure_fw/shared/crt_memset.c:16-17 | and the argument 256 does not: the word comes out as the bytes 0, 1, 1, 1 |

## Left out

- Liveness of the mailbox: an interrupt between reading the empty mask and setting `is_full` (tfm_ns_mailbox_thread.c:85-92) may not wake the runner; only safety is stated.
- Cache maintenance, barriers, peer notification and the mailbox statistics of the test build.
- The secure side of the mailbox and the operating system's queue, locks and task wake-ups; their contracts are listed above.
- DMA in `flash_area_read`, `flash_area_open`, `flash_area_erase` (a loop over sectors without a contract to relate it to) and the flash drivers.
- Single-part cryptographic functions, asymmetric, random and key management shims, the dispatcher's switch and key handling: they pass through to the backend without touching the operation table.
- The data that multipart functions return besides handles; `Use` stands for all functions that only use an operation.
- Context type union in the operation table: a context is one number, zero when all its bytes are zero.
- The mapped-buffer build of `tfm_crypto_init_iovecs`: only its effect on handles is modelled, in `CryptoRuns`.
- Firmware update queries beyond the fact that they change nothing, reboot requests, message sizes (one `Malformed` request), and the status of reject, which later queries overwrite.
- FirmwareUpdateRuns.InstallAllOrNone: does not claim that installation is refused for a component in trial that is in use, because the code does not test it.
- Building the dependency table and the service lists from manifests, and all file and template handling of the manifest tool.
- CBOR and COSE encoding of boot records, the filter of the secure partition manager for boot data, and the identical copies of the writer in the first-stage bootloaders.
- FIH delays and the profiles without doubled variables; a panic ends the run.
- ControlFlow.SoundCall: needs room for the counter; `SoundCallOverflows` shows that the bound is exact.
