# Verification of the Raspberry Pi Android HALs

This project models the stateful protocols and the layout arithmetic of the composer, gralloc, allocator,
mapper and audio HALs in Dafny, and proves what they keep in every run. `dafny verify dfyconfig.toml`
checks all of it.

Foreign calls are parameters that may answer anything the driver or kernel may answer: a successful or
failed mode set, page flip, import, mapping, PCM open or write, any clock that does not go back, any
schedule of the threads. The theorems hold for all of them.

| file | about |
|---|---|
| `HwcKms.dfy` | posting a buffer: framebuffers, first mode set, page flips; CRTC search |
| `HwcDevice.dfy`, `HwcHal.dfy` | layers, dirty set, the validate / accept / present state machine, the must-validate gate |
| `HwcEngine.dfy`, `HwcClient.dfy` | command batches over the HAL; what a departing client does |
| `VsyncTimer.dfy`, `VsyncProtocol.dfy` | when a vsync fires; the vsync thread against the lives of clients, interleaved |
| `BoLock.dfy`, `Gralloc.dfy` | lock state of a buffer object with its 64- and 32-bit usages; the handle registry |
| `Mapper.dfy`, `Allocator.dfy` | import / free / lock / unlock / flush; all-or-nothing allocation |
| `YuvLayout.dfy`, `YuvSamples.dfy`, `YuvFit.dfy` | YUV planes: the two computations, shared bytes, fit in the buffer |
| `FenceFlattening.dfy` | fences as bytes and descriptors |
| `AudioOut.dfy`, `AudioStream.dfy`, `AudioIn.dfy` | PCM protocol under two locks; the same calls as objects; read pacing |
| `IntMath.dfy`, `Wrappers.dfy` | division facts, `Option` |

Objects whose methods update fields are classes. Each method is proved against a function of the old
state, and the theorems are about runs of those functions. The two protocols in which threads meet
(`VsyncProtocol`, `AudioOut`) are state machines whose steps are single lock operations or calls.

Some properties that one might expect turn out to hold only under a condition; each is proved as an
"if and only if", with what happens otherwise:

- Creating a buffer keeps the registry exact only when the new handle's address has no entry. A look-up or a
  free of an unknown handle leaves an empty entry; a buffer created at that address can never be destroyed
  (`CreateKeepsExactIff`, `StaleEntryLeaks`, `RunExactIff`, `RestoredIffNoStaleAddress`).
- A layer id is never reused, short of 2^64 creations (`IdsRepeatOnlyAfterWrap`), and an empty count of dirty
  layers means an empty set, short of 2^32 of them (`PresentIffSettled`).
- The CPU lock and the metadata place YUV samples alike except where the YV12 Cb offset leaves 32 bits
  (`LayoutsAgreeIff`); samples share no byte exactly under the stated sizes (`SemiPlanarInjectiveIff`,
  `Yv12InjectiveIff`). Not every image lies in the buffer requested for it: `Yv12FitsIff` and `FlexibleFitsIff`
  say of each image whether it does. In particular, an interleaved image fits whatever its height at width 12 to
  16, 24 to 32 and from 36 on (`FlexibleWidthFitsIff`); at the other positive widths it depends on the height.
- Unlocking a buffer that no lock reached, such as one just imported, reads through a null pointer
  (`UnlockFaultsIff`, `UnlockAfterImportFaults`).
- A failed YCbCr lock still holds the lock when only the format was wrong (`YcbcrErrorKeepsLockIff`).
- `flushLockedBuffer`, by its name a cache flush, releases the lock; the model follows the code
  (`FlushThenUnlockIsFlush`).

## Model

| member | source | states |
|---|---|---|
| HwcKms.HwcContext.AddFramebuffer | graphics/composer/aidl/hwc_context.cpp:46-77 | a handle that has a framebuffer keeps it; otherwise the id is stored exactly if both kernel calls succeed, and the first error is returned |
| HwcKms.HwcContext.AtomicCommit | graphics/composer/aidl/hwc_context.cpp:118-142 | a failed flip makes the next post of that display set the mode, unless it failed with EBUSY |
| HwcKms.HwcContext.HwcPost | graphics/composer/aidl/hwc_context.cpp:144-190 | new flags, framebuffers, result and fence of a post are those of `Post` |
| HwcKms.PostSucceedsIffShown | graphics/composer/aidl/hwc_context.cpp:144-190 | a post succeeds exactly if the buffer's own, non-zero framebuffer reached the screen by mode set or flip; a mode set yields no fence, a flip the driver's, a rejected post leaves it |
| HwcKms.FlagTracksHistory | graphics/composer/aidl/hwc_context.cpp:118-190 | in every run, a display still needs its mode set exactly when no earlier successful mode set on it stands, that is, is followed by no broken flip on it |
| HwcKms.FlipOnlyWhenModeStands | graphics/composer/aidl/hwc_context.cpp:156-190 | a flip is attempted only while the mode of that display stands, a mode set only while it does not |
| HwcKms.DisplaysAreIndependent | graphics/composer/aidl/hwc_context.cpp:133-190 | a post on one display leaves the other's flag alone |
| HwcKms.FbStays | graphics/composer/aidl/hwc_context.cpp:46-77 | a handle's framebuffer id never changes once it is stored |
| HwcKms.OneFramebufferPerHandle | graphics/composer/aidl/hwc_context.cpp:46-77 | after one successful creation for a handle there is no second, and each later post of it that reaches the hardware shows that framebuffer |
| HwcKms.FbTracksHistory | graphics/composer/aidl/hwc_context.cpp:46-77 | a handle's framebuffer is the one made by the first valid post of it for which both kernel calls succeed, and there is none before |
| HwcKms.PostIsDecided | graphics/composer/aidl/hwc_context.cpp:144-190 | in every run a post reaches the hardware exactly if its handle is valid, its display is 0 or 1 and its framebuffer exists or is made now; it is then a flip exactly if the mode of that display stands and else a mode set, with the kernel's answer and fence; otherwise it is refused, with which error |
| HwcKms.CrtcTable.Assign | graphics/composer/aidl/hwc_context.cpp:396-406 | the first CRTC the encoder permits and nobody uses, or -EINVAL if there is none; the bit marked either way |
| HwcKms.CrtcsAreDistinct | graphics/composer/aidl/hwc_context.cpp:396-406 | successful searches return distinct CRTCs, each permitted by its encoder |
| HwcDevice.Hwc2Device.AddLayer | graphics/composer/aidl/Hwc2Device.cpp:271-278 | the next id, a 64-bit counter, is a layer and dirty; nothing else changes |
| HwcDevice.Hwc2Device.RemoveLayer | graphics/composer/aidl/Hwc2Device.cpp:280-283 | the layer is neither in the set nor dirty; tells whether it was there |
| HwcDevice.Hwc2Device.MarkLayerDirty | graphics/composer/aidl/Hwc2Device.cpp:289-301 | dirt of an existing layer set or cleared; an unknown layer changes nothing |
| HwcDevice.Hwc2Device.Create | graphics/composer/aidl/Hwc2Device.cpp:48-55 | new device state, error and id of a creation on any display number |
| HwcDevice.Hwc2Device.Destroy | graphics/composer/aidl/Hwc2Device.cpp:57-67 | new device state and error, including an unknown layer and an unknown display |
| HwcDevice.Hwc2Device.SetComposition | graphics/composer/aidl/Hwc2Device.cpp:219-229 | any type but CLIENT makes the layer dirty, CLIENT cleans it, and the state is modified; errors change nothing |
| HwcDevice.Hwc2Device.SetTarget | graphics/composer/aidl/Hwc2Device.cpp:137-152 | the target of either display replaces the one buffer, for the unknown dataspace only |
| HwcDevice.Hwc2Device.Validate | graphics/composer/aidl/Hwc2Device.cpp:154-170 | state and error follow the dirty count as a 32-bit number, which is reported |
| HwcDevice.Hwc2Device.Accept | graphics/composer/aidl/Hwc2Device.cpp:185-195 | refused exactly in the modified state; otherwise nothing is dirty and the state is validated |
| HwcDevice.Hwc2Device.Present | graphics/composer/aidl/Hwc2Device.cpp:172-183 | refused unless validated; otherwise the target is posted and the post's own result ignored |
| HwcDevice.Hwc2Device.CountChangedCompositionTypes | graphics/composer/aidl/Hwc2Device.cpp:197-217 | without output arrays, the 32-bit dirty count, or not validated |
| HwcDevice.Hwc2Device.GetChangedCompositionTypes | graphics/composer/aidl/Hwc2Device.cpp:197-217 | the first min(room, count) dirty layers in iteration order, never past the end, each with type CLIENT |
| HwcHal.Reported | graphics/composer/aidl/ComposerHal.cpp:143-161 | a validation reports the dirty layers, each once, and all of them if fewer than 2^32 |
| HwcHal.ComposerHal.ValidateDisplay | graphics/composer/aidl/ComposerHal.cpp:127-167 | lifts the gate even on an unknown display; succeeds exactly on displays 0 and 1; the two-call fetch returns `Reported`, all of type CLIENT |
| HwcHal.ComposerHal.PresentDisplay | graphics/composer/aidl/ComposerHal.cpp:169-188 | refused behind the gate, otherwise the device's answer and fence |
| HwcHal.ComposerHal.RegisterEventCallback | graphics/composer/aidl/ComposerHal.cpp:47-49 | registering closes the gate |
| HwcHal.ComposerHal.CreateLayer | graphics/composer/aidl/ComposerHal.cpp:64-67 | one step `Create`; on success the id is a layer of the device |
| HwcHal.ComposerHal.DestroyLayer | graphics/composer/aidl/ComposerHal.cpp:69-72 | one step `Destroy` |
| HwcHal.ComposerHal.SetLayerCompositionType | graphics/composer/aidl/ComposerHal.cpp:195-201 | one step `SetType` |
| HwcHal.ComposerHal.SetClientTarget | graphics/composer/aidl/ComposerHal.cpp:112-125 | one step `SetTarget` |
| HwcHal.ComposerHal.AcceptDisplayChanges | graphics/composer/aidl/ComposerHal.cpp:190-193 | one step `Accept` |
| HwcHal.StepKeepsValid | graphics/composer/aidl/Hwc2Device.h:83-102 | every call keeps: dirty layers are layers, validated means none dirty, validated-with-changes means some dirty |
| HwcHal.RunKeepsValid | graphics/composer/aidl/Hwc2Device.h:83-102 | so does every run of calls on either display |
| HwcHal.StateTracksHistory | graphics/composer/aidl/Hwc2Device.cpp:154-229 | state and gate at any point are determined by what the callers saw: the last validations, accepts, changes and registrations |
| HwcHal.LayersTrackHistory | graphics/composer/aidl/Hwc2Device.cpp:271-309 | in every run a layer exists exactly if it was created and not destroyed since; it is dirty exactly if it was created or typed other than CLIENT, and since then not destroyed, typed CLIENT or covered by an accept |
| HwcHal.AnswersAreDecided | graphics/composer/aidl/Hwc2Device.cpp:48-67 | in every run the answer of every call, success or which error, is decided by its arguments and the history: a create by the display, a destroy or re-type by the layer existing, a target by the dataspace, an accept by a standing validation, a present as below |
| HwcHal.PresentIffSettled | graphics/composer/aidl/Hwc2Device.cpp:172-183 | a present succeeds if and only if a validation stands since the last create, destroy or type change on either display, was clean or followed by an accept, and a validation came after the last registration; then no layer is dirty |
| HwcHal.PostsLastTarget | graphics/composer/aidl/Hwc2Device.cpp:137-152 | the buffer a present posts is that of the last accepted client target of either display |
| HwcHal.KmsIsRunOfPosts | graphics/composer/aidl/Hwc2Device.cpp:172-183 | the display hardware goes through exactly one post of the last accepted target for each successful present and no other |
| HwcHal.PresentFenceIsThePosts | graphics/composer/aidl/ComposerHal.cpp:169-188 | a successful present hands out the fence of its post, a refused one none |
| HwcHal.IdsAreCreationNumbers | graphics/composer/aidl/Hwc2Device.cpp:271-278 | the n-th successful creation returns n modulo 2^64 |
| HwcHal.IdsRepeatOnlyAfterWrap | graphics/composer/aidl/Hwc2Device.cpp:271-278 | two creations share an id exactly when their numbers differ by a multiple of 2^64 |
| HwcHal.ValidateAcceptPresent | graphics/composer/aidl/ComposerHal.cpp:127-193 | from any HAL state, validate, accept, present all succeed on display 0 or 1 and all fail elsewhere; the device is validated, clean, and has posted its target |
| HwcEngine.ComposerCommandEngine.DispatchLayerCommand | graphics/composer/aidl/ComposerCommandEngine.cpp:108-127 | buffer, composition, sideband stream in that order; errors logged under the current index; `LayersAchieve` says to what effect |
| HwcEngine.ComposerCommandEngine.ExecuteSetClientTarget | graphics/composer/aidl/ComposerCommandEngine.cpp:164-184 | the HAL is asked only if the resource cache has the buffer; one error at most |
| HwcEngine.ComposerCommandEngine.ExecuteSetOutputBuffer | graphics/composer/aidl/ComposerCommandEngine.cpp:186-210 | the cache is asked and its error logged |
| HwcEngine.ComposerCommandEngine.ExecuteValidateDisplayInternal | graphics/composer/aidl/ComposerCommandEngine.cpp:129-153 | three results or one error, and the cache's must-validate state is cleared either way |
| HwcEngine.ComposerCommandEngine.ExecutePresentOrValidateDisplay | graphics/composer/aidl/ComposerCommandEngine.cpp:232-241 | always validates; says so if that succeeds |
| HwcEngine.ComposerCommandEngine.ExecuteAcceptDisplayChanges | graphics/composer/aidl/ComposerCommandEngine.cpp:243-249 | the accept and its error |
| HwcEngine.ComposerCommandEngine.ExecutePresentDisplay | graphics/composer/aidl/ComposerCommandEngine.cpp:251-262 | two fence results on success and nothing at all on failure |
| HwcEngine.ComposerCommandEngine.DispatchSetters | graphics/composer/aidl/ComposerCommandEngine.cpp:93-99 | all layer commands in order, then client target, then output buffer |
| HwcEngine.ComposerCommandEngine.DispatchGates | graphics/composer/aidl/ComposerCommandEngine.cpp:100-105 | validate, accept, present, present-or-validate in that order |
| HwcEngine.ComposerCommandEngine.DispatchDisplayCommand | graphics/composer/aidl/ComposerCommandEngine.cpp:89-106 | the setters, then the gates |
| HwcEngine.ComposerCommandEngine.Execute | graphics/composer/aidl/ComposerCommandEngine.cpp:67-87 | returns the whole log of the batch, resets it, and leaves HAL and cache as `RunBatch` says |
| HwcEngine.BatchSplits | graphics/composer/aidl/ComposerCommandEngine.cpp:67-106 | running a ++ b equals running a and then b: same HAL and cache, results of a, then those of b with error indices moved by the length of a |
| HwcEngine.BatchErrorsOrdered | graphics/composer/aidl/ComposerCommandEngine.cpp:67-87 | error indices never decrease and lie within the batch |
| HwcEngine.PresentIsSilentIffRefused | graphics/composer/aidl/ComposerCommandEngine.cpp:251-262 | a present leaves no result exactly when it is refused, and then changes no state either |
| HwcEngine.CommandPresentsIff | graphics/composer/aidl/ComposerCommandEngine.cpp:89-106 | a command, on any display number, writes a present fence exactly if it asks for a present, its display is 0 or 1, and behind its setters the gate is lifted by its own validate or before and what is dirty was accepted by its own accept after a validation, or before |
| HwcEngine.BatchIsHalRun | graphics/composer/aidl/ComposerCommandEngine.cpp:89-106 | every batch takes the HAL through some run of HAL calls, so the theorems about runs hold for batches |
| HwcEngine.CommandIsItsCalls | graphics/composer/aidl/ComposerCommandEngine.cpp:89-127 | a command makes exactly its named calls of the cache and the HAL in source order (buffer and re-type per layer, target if the cache has it, output buffer, validate, accept, present, validate again), and the log gets exactly their results, every refused call but a present as an error |
| HwcEngine.BatchIsItsOps | graphics/composer/aidl/ComposerCommandEngine.cpp:67-106 | a batch drives the HAL through exactly the calls its commands name, in order |
| HwcEngine.LayersAchieve | graphics/composer/aidl/ComposerCommandEngine.cpp:93-95 | behind the layer commands an existing layer of display 0 or 1 is dirty exactly if its last type is not CLIENT or, without one, if it was dirty before |
| HwcEngine.SettersAchieve | graphics/composer/aidl/ComposerCommandEngine.cpp:93-99 | and behind all setters the target is the cached handle exactly if the command has one, the cache knows it, its dataspace is unknown and the display is 0 or 1 |
| HwcClient.ComposerClient.DestroyLayers | graphics/composer/aidl/ComposerClient.cpp:542-546 | the listed layers are neither there nor dirty, the state is modified exactly if one of them existed, all else is untouched; on another display nothing changes |
| HwcClient.ComposerClient.PresentLastFrame | graphics/composer/aidl/ComposerClient.cpp:551-567 | the final present is never refused on display 0 or 1, whatever the HAL state |
| HwcClient.ComposerClient.DestroyDisplayResources | graphics/composer/aidl/ComposerClient.cpp:542-569 | layers gone and, unless the display is virtual, the last frame posted and nothing dirty |
| HwcClient.ComposerClient.DestroyResources | graphics/composer/aidl/ComposerClient.cpp:542-570 | the same for every display of the cache in turn; the final present of each physical display 0 or 1 succeeds |
| HwcClient.DepartedClientLeaves | graphics/composer/aidl/ComposerClient.cpp:542-570 | a departed client leaves exactly the layers it did not own, the same target, shown once on each of its physical displays, no new dirt, and nothing dirty at all if it had a physical display |
| VsyncTimer.VsyncThread.Start | graphics/composer/aidl/Hwc2Device.cpp:337-342 | target, period and the started flag set, callback flags untouched |
| VsyncTimer.VsyncThread.SetCallback | graphics/composer/aidl/Hwc2Device.cpp:353-357 | the callback alone is set or removed; a pass reads it when it takes the mutex again |
| VsyncTimer.VsyncThread.EnableCallback | graphics/composer/aidl/Hwc2Device.cpp:359-365 | the enable flag alone is set; the next turn waits while it is clear |
| VsyncTimer.VsyncThread.WaitEnabled | graphics/composer/aidl/Hwc2Device.cpp:376-381 | an enabled thread does not wait; a disabled one goes on with the flags it is woken with, and stops exactly if it is no longer started |
| VsyncTimer.VsyncThread.LoopPass | graphics/composer/aidl/Hwc2Device.cpp:385-401 | which timestamp a pass aims at, that it is delivered exactly if the sleep succeeded and a callback is set when the mutex is taken again, and the target after a successful and a failed sleep |
| VsyncTimer.VsyncThread.VsyncLoop | graphics/composer/aidl/Hwc2Device.cpp:367-402 | target, flags and delivered timestamps after any number of turns, with other threads changing the flags whenever the mutex is free, up to the turn that stops the loop |
| VsyncTimer.AdjustedBounds | graphics/composer/aidl/Hwc2Device.cpp:387-390 | the adjusted target is neither past nor earlier than before, less than a period after the clock if it moved, and a whole number of periods on |
| VsyncTimer.AdjustPicksLeast | graphics/composer/aidl/Hwc2Device.cpp:387-390 | the adjusted target is the least in-phase time that is neither past nor already fired, at most one period ahead of the clock once the first vsync is due |
| VsyncTimer.PhaseGap | graphics/composer/aidl/Hwc2Device.cpp:387-390 | distinct in-phase times are at least one period apart |
| VsyncTimer.PassKeepsValid | graphics/composer/aidl/Hwc2Device.cpp:375-402 | one pass, sleep failed or not, keeps the timer invariant |
| VsyncTimer.LoopKeepsValid | graphics/composer/aidl/Hwc2Device.cpp:375-402 | over any number of turns, whatever other threads do between, the fired timestamps are in phase, strictly increasing and not ahead of the clock, the delivered ones are an increasing selection of them, and the target stays within a period of the clock |
| VsyncTimer.TurnDelivers | graphics/composer/aidl/Hwc2Device.cpp:375-402 | every turn taken aims at the least vsync time neither past nor fired, fires it exactly if the sleep succeeds and delivers it exactly if moreover a callback is set; a turn that stops the loop does neither |
| VsyncTimer.StoppedStays | graphics/composer/aidl/Hwc2Device.cpp:376-381 | once the loop has stopped, later turns fire and deliver nothing |
| VsyncProtocol.StepKeepsInv | graphics/composer/aidl/Composer.cpp:28-89 | every step of any thread keeps: one living client, pointer and hook match its phase, the thread in the hook holds it |
| VsyncProtocol.RunKeepsInv | graphics/composer/aidl/Composer.cpp:28-89 | so does every interleaving |
| VsyncProtocol.OneClientAtATime | graphics/composer/aidl/Composer.cpp:28-89 | at most one client lives, and a new one can be created exactly when none does |
| VsyncProtocol.HookSeesTheRegisteredClient | graphics/composer/aidl/ComposerHal.h:72-76 | inside the vsync hook the callback pointer is never null and names the one registered client, in every interleaving |
| VsyncProtocol.RegisteredIffHookStands | graphics/composer/aidl/ComposerHal.cpp:47-62 | a client is registered exactly between its hook being set and cleared |
| VsyncProtocol.DeliveryOnlyWhileHookStands | graphics/composer/aidl/ComposerHal.cpp:57-62 | a vsync goes only to a client whose hook stands, and never after its hook was cleared under the mutex |
| VsyncProtocol.FiringIsDecided | graphics/composer/aidl/Hwc2Device.cpp:394-400 | in every interleaving a step fires and delivers exactly if it calls the client, and fires unheard exactly if it takes the mutex after a successful sleep while no hook stands |
| VsyncProtocol.VsyncReachesTheClient | graphics/composer/aidl/Hwc2Device.cpp:394-400 | once the thread takes the mutex after a successful sleep while the hook of a client stands, the next timestamp fired is that target, and that client is called with it |
| VsyncProtocol.EnabledThreadDelivers | graphics/composer/aidl/Hwc2Device.cpp:375-402 | from the top of the loop or from its wait, enabled and with a registered client, the thread alone delivers the least vsync time due once the clock reaches it |
| VsyncProtocol.EnabledTracksHistory | graphics/composer/aidl/Hwc2Device.cpp:359-365 | delivery is enabled exactly if the last request was to enable it |
| VsyncProtocol.CallsWhileDisabled | graphics/composer/aidl/Hwc2Device.cpp:359-402 | while disabled, calls made plus the one still possible never exceed the one possible at the start |
| VsyncProtocol.AtMostOneAfterDisable | graphics/composer/aidl/Hwc2Device.cpp:359-402 | after disabling completes at most one vsync is delivered before the next enabling, in every interleaving |
| VsyncProtocol.RunDeliversInOrder | graphics/composer/aidl/Hwc2Device.cpp:394-400 | delivered timestamps are a strictly increasing selection of the fired ones |
| VsyncProtocol.DeliveredTimesAreVsyncs | graphics/composer/aidl/Hwc2Device.cpp:385-400 | each is in phase and not ahead of the clock, and successive ones are at least a period apart, across clients |
| VsyncProtocol.SampledTargetIsLeast | graphics/composer/aidl/Hwc2Device.cpp:385-391 | in every interleaving the target chosen is the least vsync time neither past nor fired |
| BoLock.FirstLock | graphics/common/gbm_gralloc.cpp:355-395 | the first lock fails only if a CPU mapping fails; otherwise count 1, usages cut to 32 bits, mapped exactly for CPU usages |
| BoLock.FurtherLock | graphics/common/gbm_gralloc.cpp:363-392 | a further lock is refused for new usages or on a mapped buffer, and otherwise only counts, despite the 32-bit usages |
| BoLock.FirstLockIsDecided | graphics/common/gbm_gralloc.cpp:363-394 | in bits: the first lock maps exactly for the usage bits 0x66 and remembers the low 32 bits |
| BoLock.CompatibleBits | graphics/common/gbm_gralloc.cpp:363-365 | in bits: the remembered 32 bits admit a 64-bit usage exactly if they cover its low half and their top bit is set or its high half is 0 |
| BoLock.SignExtendBits | graphics/common/gbm_gralloc.cpp:364-367 | in bits: the signed 32-bit value meets a 64-bit usage as itself in the low half and its top bit throughout the high half |
| BoLock.LockKeepsValid | graphics/common/gbm_gralloc.cpp:355-395 | for every 64-bit usage a lock keeps: mapped exactly if locked for the CPU, then count 1; count 0 means no usages |
| BoLock.UnlockKeepsValid | graphics/common/gbm_gralloc.cpp:400-424 | so does an unlock |
| BoLock.CpuLocksNeverNest | graphics/common/gbm_gralloc.cpp:240-241 | any lock of a mapped buffer is refused and changes nothing |
| BoLock.UnlockUnmapsExactlyTheMapped | graphics/common/gbm_gralloc.cpp:409-417 | an unlock unmaps exactly if the buffer is mapped, and leaves it unmapped |
| BoLock.UnlockUndoesLock | graphics/common/gbm_gralloc.cpp:355-424 | one unlock restores the state before a successful lock |
| BoLock.LockMapsWhenItSays | graphics/common/gbm_gralloc.cpp:378-386 | a successful lock never finds a mapping, and makes one exactly if the buffer comes out mapped |
| BoLock.RunPairsMappings | graphics/common/gbm_gralloc.cpp:230-269 | in every run the count is locks less unlocks, and mappings less unmappings is 1 or 0 as the buffer is mapped or not |
| BoLock.UnlocksUndoLocks | graphics/common/gbm_gralloc.cpp:355-424 | n successful locks are undone by n unlocks |
| Gralloc.GbmGralloc.BoFromHandle | graphics/common/gbm_gralloc.cpp:225-228 | the object of a known handle; an unknown one leaves an empty entry |
| Gralloc.GbmGralloc.GbmFree | graphics/common/gbm_gralloc.cpp:211-220 | entry and object gone; for an unknown handle only the empty entry |
| Gralloc.GbmGralloc.GbmRegister | graphics/common/gbm_gralloc.cpp:274-291 | the import is entered unless the handle is null, has any entry, or cannot be imported |
| Gralloc.GbmGralloc.BoCreate | graphics/common/gbm_gralloc.cpp:305-327 | the object exists, its handle is entered if it has no entry, and the stride is in pixels |
| Gralloc.GbmGralloc.CheckUsage | graphics/common/gbm_gralloc.cpp:343-353 | which usages a handle admits |
| Gralloc.GbmGralloc.GbmLock | graphics/common/gbm_gralloc.cpp:332-395 | registry and result of a lock on any handle, known or not |
| Gralloc.GbmGralloc.LockData | graphics/common/gbm_gralloc.cpp:363-394 | the object's data after a lock is that of `Lock`, of all other objects unchanged |
| Gralloc.GbmGralloc.GbmUnlock | graphics/common/gbm_gralloc.cpp:400-424 | registry and result of an unlock on any handle some lock reached |
| Gralloc.FreeKeeps | graphics/common/gbm_gralloc.cpp:211-220 | freeing any handle keeps: lock invariants, entries name live objects, one address each; and that every live object is entered |
| Gralloc.RegisterKeeps | graphics/common/gbm_gralloc.cpp:274-291 | so does registering |
| Gralloc.CreateKeepsSound | graphics/common/gbm_gralloc.cpp:305-327 | creating keeps them too, at a stale address all but the last |
| Gralloc.CreateKeepsExactIff | graphics/common/gbm_gralloc.cpp:305-327 | creating does if and only if the new handle's address has no entry |
| Gralloc.StaleEntryLeaks | graphics/common/gbm_gralloc.cpp:321-321 | the failing case: free an unknown handle, create at its address; no sequence of frees destroys the object |
| Gralloc.LockKeeps | graphics/common/gbm_gralloc.cpp:332-395 | locking any handle keeps all four |
| Gralloc.UnlockKeeps | graphics/common/gbm_gralloc.cpp:400-424 | so does unlocking |
| Gralloc.AdmittedBits | graphics/common/gbm_gralloc.cpp:343-353 | in bits: which usages a handle made for some usages admits |
| Gralloc.LockByHandle | graphics/common/gbm_gralloc.cpp:332-395 | a lock is refused for an unknown handle or a usage not admitted; otherwise it works on that object alone and for the usage asked for: the first maps exactly for a CPU usage, a further one needs an unmapped object and covered usages |
| Gralloc.UnlockByHandle | graphics/common/gbm_gralloc.cpp:400-424 | an unlock takes one lock and the mapping from that object alone, and with the last lock the usages |
| Gralloc.YcbcrLockByHandle | graphics/common/gbm_gralloc.cpp:439-478 | a YCbCr lock does what a lock does, passes its error on, and otherwise succeeds for exactly four formats |
| YuvLayout.LockYcbcrBuffer | graphics/common/gbm_gralloc.cpp:428-481 | registry and error of a YCbCr lock, and on success the layout |
| Gralloc.LookupPoisonsRegistration | graphics/common/gbm_gralloc.cpp:225-228 | after a look-up or free of an unknown handle its registration is refused |
| Gralloc.YcbcrErrorKeepsLockIff | graphics/common/gbm_gralloc.cpp:439-478 | a failed YCbCr lock holds the lock exactly if only the format was wrong; one unlock gives it back |
| Gralloc.RunKeepsSound | graphics/common/gbm_gralloc.cpp:211-424 | in every run, stale creations included, the lock invariants hold, each entered object is live and not destroyed, and it is entered under one address |
| Gralloc.RunExactIff | graphics/common/gbm_gralloc.cpp:211-424 | in every run the entries are exactly the live objects if and only if no creation met a stale entry; otherwise some live object has no entry |
| Gralloc.DestroyedOnce | graphics/common/gbm_gralloc.cpp:211-220 | in every run no object is destroyed by two calls |
| Gralloc.DestroyedStays | graphics/common/gbm_gralloc.cpp:211-220 | a destroyed object is never live again |
| Gralloc.DataIsRun | graphics/common/gbm_gralloc.cpp:332-424 | in every run the lock data of each live object is that of a fresh one after exactly the locks and unlocks that reached it through its handle |
| Gralloc.UnlockFaultsIff | graphics/common/gbm_gralloc.cpp:400-414 | in every run an unlock reads through a null pointer exactly if its handle is known and no earlier lock of an admitted usage, successful or not, reached the object |
| Gralloc.RegisterThenUnlockFaults | graphics/common/gbm_gralloc.cpp:400-414 | the shortest such run: register, then unlock |
| Mapper.MapperService.ImportBuffer | graphics/mapper/4.0/Mapper.cpp:96-120 | result, registry and descriptors of an import, on all three error paths |
| Mapper.MapperService.FreeBuffer | graphics/mapper/4.0/Mapper.cpp:122-140 | always succeeds on a non-null buffer; entry, object and descriptors go |
| Mapper.MapperService.LockBuffer | graphics/mapper/4.0/Mapper.cpp:160-196 | null buffer and bad fence change nothing; else a lock with the usage cut to signed 32 bits |
| Mapper.MapperService.UnlockBuffer | graphics/mapper/4.0/Mapper.cpp:207-226 | one unlock, its failure reported as unsupported |
| Mapper.MapperService.FlushLockedBuffer | graphics/mapper/4.0/Mapper.cpp:245-265 | the same unlock |
| Mapper.ImportSucceedsIff | graphics/mapper/4.0/Mapper.cpp:96-120 | exactly when an import succeeds; a failed one leaves registry and descriptors as they were, a successful one enters the object and opens the descriptors of the clone |
| Mapper.LockUsageBits | graphics/mapper/4.0/Mapper.cpp:168-171 | in bits: a lock asks for the low 32 bits of the client's usage, with bit 31 copied above |
| Mapper.LockUsageForCpu | graphics/mapper/4.0/Mapper.cpp:168-171 | so it is for the CPU exactly for the client's bits 0x66 |
| Mapper.ImportThenFree | graphics/mapper/4.0/Mapper.cpp:96-140 | import then free restores entries, lock data, live objects and open descriptors |
| Mapper.UnlockAfterImportFaults | graphics/mapper/4.0/Mapper.cpp:207-214 | the same after an import |
| Mapper.FreeOfUnknownPoisonsAddress | graphics/mapper/4.0/Mapper.cpp:122-140 | after a free, an import at the same address succeeds exactly if the freed handle was registered; the descriptors are closed either way |
| Mapper.FlushThenUnlockIsFlush | graphics/mapper/4.0/Mapper.cpp:207-265 | after one lock, a flush releases it and the later unlock does nothing |
| Allocator.CreateExtends | graphics/allocator/aidl/Allocator.cpp:148-168 | one more buffer made extends the account of registered buffers, stale addresses included |
| Allocator.FreeAdvances | graphics/allocator/aidl/Allocator.cpp:125-131 | one more buffer freed advances it |
| Allocator.StrideSnoc | graphics/allocator/aidl/Allocator.cpp:161-166 | the comparison with the first positive stride decides exactly whether a common stride exists, for every continuation |
| Allocator.NextStride | graphics/allocator/aidl/Allocator.cpp:161-166 | the running stride is that of the request so far; a mismatch rules out success of the whole request |
| Allocator.RestoredIffNoStaleAddress | graphics/allocator/aidl/Allocator.cpp:133-179 | no object is left over exactly if no new handle met a stale entry, and then every object made was destroyed |
| Allocator.AllocatorService.AllocateOneBuffer | graphics/allocator/aidl/Allocator.cpp:103-123 | succeeds exactly for a supported format and a driver that delivers; a failure changes nothing |
| Allocator.AllocatorService.FreeBuffers | graphics/allocator/aidl/Allocator.cpp:125-131 | all given buffers freed and their descriptors closed, nothing else |
| Allocator.AllocatorService.Abandon | graphics/allocator/aidl/Allocator.cpp:154-166 | an abandoned request leaves nothing but stranded objects |
| Allocator.AllocatorService.HandOut | graphics/allocator/aidl/Allocator.cpp:169-176 | one duplicate per buffer goes out, the originals are freed |
| Allocator.AllocatorService.MakeAll | graphics/allocator/aidl/Allocator.cpp:144-167 | the loop ends with all buffers pending and one stride, or with an error, no request that could succeed, and everything made so far given back |
| Allocator.AllocatorService.Allocate | graphics/allocator/aidl/Allocator.cpp:144-179 | success exactly if every attempt yields a buffer and the strides agree, with one handle each and the common stride, else which error; on every path the registry is restored and the descriptors grow by the duplicates only |
| YuvLayout.MaskClearsLowBits | graphics/common/gbm_gralloc.cpp:426-426 | the 32-bit mask clears the last four bits |
| YuvLayout.Align16IsLeastMultiple | graphics/common/gbm_gralloc.cpp:426-426 | absent overflow the macro gives the least multiple of 16 not below its argument |
| YuvLayout.Align16Wraps | graphics/common/gbm_gralloc.cpp:426-426 | in the last 15 values it gives 0 |
| YuvLayout.LayoutsAgreeIff | graphics/mapper/4.0/Mapper.cpp:286-418 | metadata offsets, strides and increments give the address of the CPU lock's pointers for every sample, exactly if for YV12 the Cb offset fits 32 bits |
| YuvLayout.Yv12PlanesTile | graphics/mapper/4.0/Mapper.cpp:352-410 | the YV12 planes follow each other without gap or overlap |
| YuvLayout.LayoutIffYcbcr | graphics/mapper/4.0/Mapper.cpp:286-418 | lock and metadata both have a layout for exactly the same four formats |
| YuvLayout.PlanesDescribePicture | graphics/mapper/4.0/Mapper.cpp:286-418 | the planes are Y, Cr, Cb, count exactly the samples of the picture in their component at their subsampling, and state their total |
| YuvLayout.ChromaOrder | graphics/common/gbm_gralloc.cpp:445-474 | which chroma component comes first, and how far the other is behind |
| YuvSamples.SemiPlanarInjectiveIff | graphics/common/gbm_gralloc.cpp:446-464 | no two samples share a byte, for every size, exactly if there is no chroma or the luma plane is below 2^32 bytes |
| YuvSamples.SemiPlanarCollides | graphics/common/gbm_gralloc.cpp:446-464 | two colliding samples in every other case |
| YuvSamples.Yv12InjectiveIff | graphics/common/gbm_gralloc.cpp:465-474 | the same for YV12, where the wrapped chroma planes of very narrow images must also stay apart |
| YuvSamples.Yv12LumaCollides | graphics/common/gbm_gralloc.cpp:465-474 | colliding samples when the luma plane wraps |
| YuvSamples.Yv12ChromaCollides | graphics/common/gbm_gralloc.cpp:465-474 | colliding samples when only the chroma planes meet |
| YuvFit.PixelStrideCoversWidth | graphics/common/gbm_gralloc.cpp:98-127 | the stride in pixels that an allocation returns covers the width, up to the odd column of YV12, and is just that width if the driver pads nothing |
| YuvFit.FitsIffLastSamplesDo | graphics/common/gbm_gralloc.cpp:175-209 | for every format and size, all samples lie in the requested buffer at every granted stride exactly if the last sample of each plane lies in the smallest one |
| YuvFit.Yv12FitsIff | graphics/common/gbm_gralloc.cpp:175-209 | a YV12 image of any size, wrapped offsets included, lies in the requested buffer at every granted stride exactly if its luma plane and its last Cb sample do |
| YuvFit.Yv12FitsUnwrappedIff | graphics/common/gbm_gralloc.cpp:175-209 | absent wrap that is: an empty image, a single row of even width, or width a multiple of 32 and even height |
| YuvFit.FlexibleFitsIff | graphics/common/gbm_gralloc.cpp:175-209 | a 4:2:0 image with interleaved chroma of any size, wrapped offset included, lies in the requested buffer at every granted stride exactly if its last luma and last Cr sample do |
| YuvFit.FlexibleWidthFitsIff | graphics/common/gbm_gralloc.cpp:175-209 | the widths that fit at every height: 0, 12 to 16, 24 to 32, and 36 and above |
| FenceFlattening.Fence.Flatten | graphics/mapper/4.0/Fence.cpp:164-176 | fails exactly for want of room and then changes nothing; otherwise the count and the descriptor are written at the cursors, which advance past them, and nothing behind them changes |
| FenceFlattening.Fence.Unflatten | graphics/mapper/4.0/Fence.cpp:178-205 | status, cursors and descriptor on all four error paths and on success |
| FenceFlattening.ReadIsDecided | graphics/mapper/4.0/Fence.cpp:178-205 | for any bytes and any fence: which of the four errors or success, what is consumed, and the descriptor |
| FenceFlattening.FlattenAll | graphics/mapper/4.0/Fence.cpp:164-176 | any sequence of fences is flattened, or fails exactly for want of room for all |
| FenceFlattening.RoundTrip | graphics/mapper/4.0/Fence.cpp:164-205 | unflattening into fresh fences yields the same sequence and consumes exactly what flattening produced, wherever it lies |
| FenceFlattening.FlattenThenUnflatten | graphics/mapper/4.0/Fence.cpp:164-205 | the two from the start of one buffer and descriptor array |
| AudioOut.StepKeepsInv | audio/audio_hw.c:104-119 | every step of any thread keeps locks, standby flags and PCM ownership consistent |
| AudioOut.RunKeepsInv | audio/audio_hw.c:220-269 | so does every interleaving of writes, standbys and closes on any number of streams |
| AudioOut.WritesOwnOpenPcm | audio/audio_hw.c:249-249 | a thread at pcm_write holds the stream lock, and the stream's PCM is open and no other stream's |
| AudioOut.StandbyIffNoPcm | audio/audio_hw.c:173-187 | whenever a stream's lock is free it is in standby exactly if it has no PCM, and a PCM it has is open |
| AudioOut.ClosesOpenPcm | audio/audio_hw.c:104-187 | each close is of an open PCM that was not closed before |
| AudioOut.ClosedAtMostOnce | audio/audio_hw.c:104-187 | no PCM is closed by two steps of a run |
| AudioOut.ClosedStays | audio/audio_hw.c:104-187 | a closed PCM is never open again, and one ever opened stays open or is closed |
| AudioOut.FreedWithoutPcm | audio/audio_hw.c:497-503 | a stream about to be freed has no PCM |
| AudioOut.FreedStreamsPcmsAreClosed | audio/audio_hw.c:497-503 | once a stream is freed every PCM it ever had is closed, whatever other streams do |
| AudioOut.AllClosedAtTheEnd | audio/audio_hw.c:497-503 | with no stream left every PCM ever opened is closed |
| AudioOut.CloseFrees | audio/audio_hw.c:183-186 | a standby or close releases the stream and then the device; a close then frees the stream |
| AudioOut.WrittenIsSum | audio/audio_hw.c:255-257 | in every interleaving `written` is the sum of the frames of the successful writes, modulo 2^64 |
| AudioOut.WriteCounts | audio/audio_hw.c:249-257 | in every run a write that succeeds adds its frames to its stream, and no other step does |
| AudioOut.StepIsLocal | audio/audio_hw.c:220-269 | a step of a thread changes its own place and stream and the locks and PCMs as its local step says, and no other thread or stream |
| AudioOut.NoDeadlock | audio/audio_hw.c:220-269 | while some thread is inside a call, some thread can take a step |
| AudioStream.StandbyCall | audio/audio_hw.c:173-187 | the steps of an uninterrupted standby, alone or on closing, end with both locks free, the PCM closed and standby set |
| AudioStream.WriteCall | audio/audio_hw.c:220-269 | the steps of an uninterrupted write, for a PCM that cannot be opened, is not ready, or works |
| AudioStream.StreamOut.Start | audio/audio_hw.c:104-119 | a PCM that is not ready is closed again and not kept |
| AudioStream.StreamOut.Write | audio/audio_hw.c:220-269 | ends where the interleaved steps end; standby is left exactly if the PCM opens; the byte count is returned except on underrun; frames count exactly when the write succeeds |
| AudioStream.StreamOut.Standby | audio/audio_hw.c:173-187 | ends where the interleaved steps end, in standby |
| AudioIn.StreamIn.Read | audio/audio_hw.c:380-411 | the drain time becomes max(now, drain time + duration), a full duration after standby, and the thread sleeps until it |
| AudioIn.DrainIsMaxPlus | audio/audio_hw.c:388-399 | after any reads the drain time is the latest, over all reads so far, of its call time plus the durations that follow it (plus its own for the first) |
| AudioIn.PaceIsExactIffNoneLate | audio/audio_hw.c:388-399 | never earlier than the first call plus all durations, and exactly that if and only if no read is late |
| AudioIn.DurationBounds | audio/audio_hw.c:392-393 | two truncating divisions lose less than one microsecond of a read |
| AudioIn.DriftIsBounded | audio/audio_hw.c:392-393 | and less than n microseconds of n reads |

## Left out

- Resource cache (`ComposerResources`): its inside is not shown; the queries are arbitrary functions of its state.
- Layers of a client against layers of the device: hotplug and failing calls let the two sets differ, so no claim is made.
- Engine setters whose bodies are commented out, `getDisplay*` queries, stub getters and setters of composer and audio: they change no modelled state.
- Vsync protocol and composer client as objects: creation, registration and destruction are interleaved steps of a state machine; only the loop body and the final frames are methods. A client whose `init` fails is never created.
- Audio device and its threads as objects: `AudioOut` is a state machine over values; `AudioStream` gives the calls of one thread as methods. The sleep after a failed write only delays its thread.
- HwcHal.ComposerHal.RegisterEventCallback: only the gate; the callback pointer and the hotplug and vsync hooks are in `VsyncProtocol`.
- VsyncTimer.VsyncThread.Start: the fields only; the thread it creates is `VsyncLoop`.
- Mapper.MapperService.LockBuffer: the access region, the returned address and the wait for the fence are not modelled; the mapped region does not enter the lock state.
- Stopping the vsync thread: it notices only while the callback is disabled, so no claim is made that it ends.
- Overflow of vsync times (64 bits), of `lock_count` and of `mCommandIndex` (32 bits): taken as unbounded integers.
- A vsync period that is not positive (`fps` of 0 or above 10^9): the source divides by it.
- Allocator.AllocatorService.Allocate: takes the number of attempts as the count, so a negative count, for which the source's `reserve` throws, is not modelled; nor is a descriptor that fails to decode.
- Drivers: gbm, DRM, tinyalsa, sync and binder are parameters. Assumed of them: new objects, descriptors and handle addresses in use by nobody else; non-zero framebuffer ids; a positive error number when a creation fails; a mapping cookie exactly when mapping succeeds; a clock that never goes back and a successful sleep that does not end early.
- Iteration order of `std::unordered_set`: some unknown function of the contents.
- Driver formats: `drm_fourcc.h` is not part of this model; a pixel of ABGR8888 and its like has 4 bytes, of RGB565 and GR88 2, of R8 1.
- `hardware/gralloc1.h` and `hardware/hwcomposer2.h` are not part of this model; the usage bits 0x66, 0x100, 0x1000 and the composition type 1 are those of these headers.
- Gralloc.GbmGralloc.GbmUnlock: requires that the unlock does not fault (`UnlockFaults`), and so do the mapper's unlock and flush; `UnlockFaultsIff` says when it would. Runs end there.
- Concurrent calls into gralloc: the registry is not locked in `gbm_gralloc.cpp`; the mutex wrapper in `gralloc/`, with its one static handle, is left out.
- YCrCb_420_SP and the buffer it fits in: `get_gbm_format` knows no format for it, so no buffer can be requested.
- Widths of 2^31 - 15 and above: the aligned width leaves the signed 32-bit range.
- Total sizes of the interleaved chroma planes in the metadata: they follow another stride than the planes and no address depends on them.
- AudioIn.StreamIn.Read: the product of bytes and 1000000 is not cut to 64 bits; a sample rate set to 0 after opening divides by zero in the source.
- Mode timing formula, mode parsing, plane and property enumeration, `init_kms` fallback, `libmemtrack`, type translation, service start-up, logging and tracing: floating point, driver queries or no state.
