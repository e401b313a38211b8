# terrain_generator core, modelled in Dafny

This project models the sequential logic of a Vulkan/SDL3 terrain renderer.
Every call into Vulkan or SDL is replaced by an explicit result value (`VkSuccess`, `VkSuboptimal`, `VkErrorOutOfDate`, an error) or an explicit answer from the driver, the window system or `malloc`. The modelled parts are:

- **Memory:** the bump arena (`arena.cpp`) and its older unchecked revision (`arena.c`), the multi-arena memory context (`memory.cpp`), mesh allocation on an arena and the quad (`mesh.cpp`, `quad.cpp`), and the `MIN`/`MAX`/`CLAMP`/`KILOBYTES`/`MEGABYTES` macros.
- **Device and swapchain:** queue-family discovery, extension check, scoring and selection of the physical device, memory-type lookup and logical-device creation (`vk_device.c`). Surface-format, present-mode, extent, image-count and sharing negotiation, creation, destruction and recreation of the swapchain (`vk_swapchain.c`).
- **Frame slots:** the two frames in flight with their semaphores and fences (`vk_sync.c`).
- **Buffers:** creation with its failure unwinding, destruction, the mapped copy and the staged vertex/index upload (`vk_buffer.cpp`).
- **The renderer:** framebuffers, render-finished semaphores and swapchain recreation (`renderer_swapchain.c`). The frame step machine and resize (`renderer_frame.cpp`). Camera uniforms, mesh upload, `renderer_create` and `renderer_destroy` (`renderer_init.cpp`).
- **The earlier renderer revision:** frame, resize, recreation, semaphore creation, and the unwinding of `renderer_init` (`renderer.c`).
- **Platform:** keyboard and mouse edge detection with window filtering (`input.c`), and the window's close, minimized and resized flags (`window.c`).

Graphics objects live in a ledger (`Ledger.Gpu`):

- A creation hands out a fresh handle and records it as live, with its kind and its parent.
- A destruction removes it.
- Destroying a handle that is not live, or destroying a parent while a child of it is still live, counts a fault.
- Every creation and destruction is appended to a log, so orderings can be stated.

The renderer's tables of handles (`RendererInternal.Renderer`) are related to the ledger by `Ledger.Tracks`: every non-null recorded handle is live, of the field's kind, and recorded once. That makes "no leak", "no double destroy" and "children before parents" provable properties of each operation.

Integers are unbounded. The source's `u32` and `size_t` arithmetic is written out wherever a wrap-around matters: the legacy arena's fit test, the device score, and the window's size conversion. The constants are `MAX_SWAPCHAIN_IMAGES = 4` and `MAX_FRAMES_IN_FLIGHT = 2`.

## Model

| member | source | states |
|---|---|---|
| Macros.Min | src/utils/macros.h:37 | `MIN` returns one of its arguments and is at most both; on a tie the second argument |
| Macros.Max | src/utils/macros.h:38 | `MAX` returns one of its arguments and is at least both |
| Macros.Clamp | src/utils/macros.h:39 | `CLAMP` is never below the lower bound, lies in the range when the range is non-empty, keeps an in-range value, and the lower bound wins when the bounds cross |
| Macros.Kilobytes | src/utils/macros.h:44 | `KILOBYTES(x)` is a multiple of 1024 whose quotient is `x` |
| Macros.Megabytes | src/utils/macros.h:45 | `MEGABYTES(x)` is a multiple of 1024*1024 whose quotient is `x` |
| Arena.BitTestIsPowerOfTwo | src/memory/arena.cpp:21 | the bit test `v != 0 && (v & (v-1)) == 0` holds exactly for powers of two |
| Arena.AlignedPos | src/memory/arena.cpp:61-67 | the mask `(pos + a - 1) & ~(a - 1)` without overflow is the least multiple of `a` at or above `pos` |
| Arena.AlignUpOfAligned | src/memory/arena.cpp:67 | an already aligned position is not moved |
| Arena.AllocAligned | src/memory/arena.cpp:55-79 | refuses a zero or non-power-of-two alignment, an overflowing rounding and a request that does not fit, leaving the arena untouched; succeeds exactly otherwise, with an aligned block at the rounded position, less than one alignment past the old position, and the position moved to its end |
| Arena.Alloc | src/memory/arena.cpp:53 | pointer-aligned allocation succeeds exactly when the 8-rounded position plus the size fits |
| Arena.AllocSequence | src/memory/arena.cpp:55-79 | blocks handed out by successive allocations lie in the free region, in increasing order and never overlap |
| Arena.Create | src/memory/arena.cpp:23-34 | a failed `malloc` leaves the all-zero arena; otherwise the arena has the block and size at position 0 |
| Arena.Destroy | src/memory/arena.cpp:36-42 | frees the block exactly when there is one and zeroes the arena |
| Arena.Clear | src/memory/arena.cpp:44-51 | only the position returns to 0 |
| Arena.ClearRestoresFresh | src/memory/arena.cpp:44-51 | clearing after any allocations gives back the arena as created |
| Arena.TempBegin | src/memory/arena.cpp:81-86 | a scope saves the current position |
| Arena.TempEnd | src/memory/arena.cpp:88 | ending a scope writes the saved position back and nothing else |
| Arena.TempScopeRestores | src/memory/arena.cpp:81-88 | a temporary scope undoes every allocation made inside it |
| Arena.ScratchBegin | src/memory/arena.cpp:110-116 | no scratch arena, or one without a block, yields the empty scope; otherwise a scope at its position |
| ArenaLegacy.LegacyAllocAligned | src/memory/arena.c:38-53 | the unchecked allocator grants exactly when the end `aligned_pos + size`, wrapped modulo 2^64, is within the size, at the offset `(pos + alignment - 1) & ~(alignment - 1)` computed in `size_t`; it keeps block and size, changes nothing on refusal, and moves the position to the wrapped end of the block |
| ArenaLegacy.LegacyAgreesWhenNothingWraps | src/memory/arena.c:38-53 | with a power-of-two alignment and no wrap-around the unchecked and checked allocators agree exactly |
| ArenaLegacy.LegacyAcceptsOversizedRequest | src/memory/arena.c:40-43 | a `SIZE_MAX` request 16 bytes into a 64-byte arena is accepted because the fit test wraps; the checked allocator refuses it |
| ArenaLegacy.LegacyZeroAlignmentOverlaps | src/memory/arena.c:40 | alignment 0 places the block at offset 0, over earlier allocations; the checked allocator refuses it |
| ArenaLegacy.LegacyScratchBegin | src/memory/arena.c:76-78 | the legacy scratch scope always points at the global arena |
| Memory.CreateChecked | src/memory/memory.cpp:5-12 | size 0 succeeds with the zeroed arena; otherwise success is exactly `malloc` succeeding |
| Memory.CreateAll | src/memory/memory.cpp:21-39 | the arenas are created in order and creation stops at the first failure; it succeeds exactly when every non-zero size got a block |
| Memory.CreatedOwnHanded | src/memory/memory.cpp:21-39 | the arenas created own exactly the blocks `malloc` handed out |
| Memory.ShutdownContext | src/memory/memory.cpp:53-69 | zeroes the context, frees exactly the blocks it owns, and unhooks the global scratch pointer only when it aims at this context |
| Memory.InitContext | src/memory/memory.cpp:14-51 | a missing config fails with nothing changed; otherwise success is exactly every arena getting its block, with the context initialised and the scratch hooked; a failure zeroes the context |
| Memory.InitThenShutdownFreesAll | src/memory/memory.cpp:48-51 | a failed init frees every block it obtained, and a successful init followed by shutdown frees them all |
| Memory.InitHooksScratch | src/memory/memory.cpp:41-43 | after a successful init with a scratch size the global scratch pointer aims at the context's scratch arena |
| Memory.ArenaAt | src/memory/memory.cpp:71-76 | NULL for a missing context or an id at or past the count, otherwise that arena |
| Memory.RoleArenaAgrees | src/memory/memory.cpp:103-129 | each role accessor is `memory_arena` at the role's id |
| Memory.BeginFrame | src/memory/memory.cpp:78-87 | only the frame arena changes, and only its position, reset when it has a block |
| Memory.FrameArenaResetsEachFrame | src/memory/memory.cpp:78-87 | whatever the frame allocated, the next frame starts from the freshly created frame arena |
| Memory.ScratchInit | src/memory/arena.cpp:90-97 | scratch init replaces the storage arena and points the global pointer at it |
| Memory.ScratchShutdown | src/memory/arena.cpp:99-108 | shutdown clears the pointer and frees the storage arena only when the pointer aimed at it |
| Memory.ScratchInitShutdownBalanced | src/memory/arena.cpp:90-108 | init then shutdown frees exactly the block init obtained |
| Memory.ScratchBegin | src/memory/memory.cpp:89-100 | a scope on the context's own scratch arena when it has a block; otherwise exactly the global scratch scope of `Arena.ScratchBegin`, attached exactly when the global pointer aims at an arena with a block |
| Mesh.Allocate | src/geometry/mesh.cpp:7-26 | succeeds exactly when both arrays were pushed; on success the counts are recorded and the arrays are aligned, in order, inside the arena's free space; on failure the counts stay 0 |
| Mesh.AllocateFitsExactly | src/geometry/mesh.cpp:7-26 | from a 4-aligned position the allocation succeeds exactly when both arrays fit in the space left |
| Quad.CreateColored | src/geometry/quad.cpp:16-57 | asks for exactly 4 vertices and 6 indices, returns the allocation failure untouched, and otherwise writes the four corners with the given colours and the index list `[0,1,2,2,3,0]` |
| Quad.Create | src/geometry/quad.cpp:4-14 | the default quad carries red, green, blue and yellow corners |
| Quad.QuadIsWellFormed | src/geometry/quad.cpp:20-56 | every index is below the vertex count, corners 0 and 2 appear twice and 1 and 3 once, and the two triangles wind the same way and cover the unit square |
| Device.FindQueueFamilies | src/renderer/vk_device.c:44-84 | a graphics family is reported exactly when some family has the graphics bit, and a presenting one exactly when some family can present; every reported index is in range and has its capability; an incomplete scan has seen no later candidate; without scratch memory nothing is found |
| Device.FoundCount | src/renderer/vk_device.c:28-36 | the count of required extensions found is at most the number required, and is zero exactly when none of them is available |
| Device.CheckExtensionSupport | src/renderer/vk_device.c:15-42 | a device passes exactly when scratch memory was available and the swapchain or the portability extension is among those it reports |
| Device.TypeBonus | src/renderer/vk_device.c:99-104 | a discrete GPU gains exactly 1000, an integrated GPU exactly 100, and any other kind nothing |
| Device.RateDevice | src/renderer/vk_device.c:91-120 | the score is the type bonus plus the largest 2D image dimension in 32-bit arithmetic; an unsuitable device (no complete queue families, no extension, or a refused scratch push in either query) scores zero |
| Device.DiscreteBeatsIntegrated | src/renderer/vk_device.c:99-107 | among suitable devices of equal image limits, a discrete GPU outscores an integrated one, which outscores any other kind |
| Device.FirstBestUnique | src/renderer/vk_device.c:142-157 | the device the selection keeps (first with the highest positive score) is unique |
| Device.SelectPhysicalDevice | src/renderer/vk_device.c:123-168 | selection succeeds exactly when the device list's scratch push is served and some device scores above zero with the pushes it is granted, and then picks the first best one; otherwise a refused push for a non-empty list gives out-of-host-memory, and an empty list or no positive score gives an initialisation failure |
| Device.FindMemoryType | src/renderer/vk_device.c:251-261 | the result is the lowest memory type allowed by the filter and carrying every requested property, and UINT32_MAX exactly when there is none |
| Device.QueueCreateFamilies | src/renderer/vk_device.c:191-212 | one queue is requested per distinct family: the graphics family first, then the presenting family when it differs |
| Device.Create | src/renderer/vk_device.c:170-240 | a device is selected exactly when selection can succeed, and then the result is the logical device's; otherwise the context stays zeroed and the result is the selection's error; success exactly when selection can succeed and the logical device is created; the selected device is the first best; its families are complete exactly when the repeated family query's push is served; only the device field changes; the ownership invariant is kept and with a live instance no fault is raised |
| Device.MakeDeviceKeeps | src/renderer/vk_device.c:228-232 | recording a new device into an empty field keeps the ownership invariant |
| Device.Destroy | src/renderer/vk_device.c:242-249 | a non-null device is destroyed and removed from the live set, a null one changes nothing, and the context is zeroed |
| Device.DestroyCleanAndIdempotent | src/renderer/vk_device.c:242-249 | once no device child is live, destroying the device raises no fault, and destroying again changes nothing |
| Swapchain.ChooseSurfaceFormat | src/renderer/vk_swapchain.c:31-42 | B8G8R8A8_SRGB with the sRGB nonlinear colour space is chosen whenever it is offered, otherwise the first format |
| Swapchain.ChoosePresentMode | src/renderer/vk_swapchain.c:45-55 | mailbox is chosen exactly when it is offered, otherwise FIFO |
| Swapchain.ChooseExtent | src/renderer/vk_swapchain.c:58-73 | a defined current extent is used as it is; the UINT32_MAX sentinel makes each dimension the window size clamped to the allowed range: an in-range request is kept, one below or above the range becomes the nearer bound, and an empty range gives its lower bound |
| Swapchain.ImageCount | src/renderer/vk_swapchain.c:123-130 | the smallest of one more than the minimum (in 32-bit arithmetic), the maximum when it is non-zero, and the image-array capacity; at least the minimum when the limits allow it; zero exactly when the minimum is UINT32_MAX |
| Swapchain.Sharing | src/renderer/vk_swapchain.c:152-164 | concurrent sharing over both families exactly when the graphics and presenting families differ |
| Swapchain.SharingMatchesQueues | src/renderer/vk_swapchain.c:158-164 | the swapchain is shared by exactly the families the device created queues on |
| Swapchain.Negotiate | src/renderer/vk_swapchain.c:119-150 | the create info uses an offered format and passes the retired swapchain along |
| Swapchain.Begin | src/renderer/vk_swapchain.c:113-172 | the context is zeroed and the swapchain handle is recorded exactly when creation succeeded; nothing outside the context changes |
| Swapchain.Views | src/renderer/vk_swapchain.c:76-106 | views are made in order and stop at the first failure, whose result is returned; success exactly when all were made; the failed slot is null and no later slot is touched |
| Swapchain.AsWrittenCreate | src/renderer/vk_swapchain.c:184-189 | on an image-view failure the swapchain is destroyed but its handle stays in the context, no longer live |
| Swapchain.Create | src/renderer/vk_swapchain.c:108-193 | corrected (the view-failure path also clears the swapchain handle; see Findings): success exactly when a swapchain is recorded; a failed swapchain call leaves the context zeroed, while after a view failure the image count and the views made stay recorded; on success every image has a view; nothing outside the context changes |
| Swapchain.CreateSteps | src/renderer/vk_swapchain.c:166-189 | corrected: creation is the swapchain step, then the views, then, when a view failed, destroying the swapchain and clearing its handle (the source destroys it and keeps the handle, see `Swapchain.AsWrittenCreate`) |
| Swapchain.CreateKeeps | src/renderer/vk_swapchain.c:108-193 | corrected: creation keeps the ownership invariant and, with device and surface live, raises no fault (as written a view failure leaves a destroyed swapchain recorded, see `Swapchain.AsWrittenDestroyFaults`) |
| Swapchain.Destroy | src/renderer/vk_swapchain.c:195-210 | every view and the swapchain end null and the context is zeroed; an empty context is destroyed without effect |
| Swapchain.DestroyIdempotent | src/renderer/vk_swapchain.c:195-210 | destroying twice is the same as destroying once |
| Swapchain.DestroyKeeps | src/renderer/vk_swapchain.c:195-210 | destruction keeps the ownership invariant and raises no fault |
| Swapchain.CreateDestroyBalanced | src/renderer/vk_swapchain.c:108-210 | corrected (over the corrected `Swapchain.Create`): creating into an empty context and destroying it again restores the live set and table with no fault, whatever failed in between |
| Swapchain.AsWrittenDestroyFaults | src/renderer/vk_swapchain.c:184-206 | as written, a first-view failure followed by the usual destroy destroys the swapchain a second time |
| Swapchain.AsWrittenRecreate | src/renderer/vk_swapchain.c:212-235 | the recreation as written passes the old swapchain as the retired one, clears the retired field, and after a failed view of the new swapchain keeps its destroyed handle |
| Swapchain.AsWrittenRecreateDestroyFaults | src/renderer/vk_swapchain.c:212-235 | as written, a recreation whose first new view fails reports the failure and the next destroy destroys the new swapchain a second time |
| Swapchain.DestroyDanglingFaults | src/renderer/vk_swapchain.c:204-206 | destroying a context whose swapchain handle is no longer live is one fault |
| Swapchain.Recreate | src/renderer/vk_swapchain.c:212-235 | corrected (over the corrected `Swapchain.Create`): the old swapchain is passed as the retired one; success exactly when a new swapchain is recorded; only the context changes |
| Swapchain.Retire | src/renderer/vk_swapchain.c:216-224 | every old view is destroyed and cleared, and the old swapchain is kept aside as retired |
| Swapchain.RecreateKeeps | src/renderer/vk_swapchain.c:212-235 | corrected (over the corrected `Swapchain.Create`): recreation keeps the ownership invariant, leaves the old swapchain destroyed, and with device and surface live raises no fault |
| Swapchain.RetireLog | src/renderer/vk_swapchain.c:218-224 | retiring appends exactly one image-view destruction per non-null old view |
| Swapchain.RecreateViewsFirst | src/renderer/vk_swapchain.c:218-227 | the old views are destroyed before anything else happens |
| Swapchain.RecreateCreatesNext | src/renderer/vk_swapchain.c:226-227 | right after the view destructions comes the new swapchain's creation attempt |
| Swapchain.RecreateRetiresLast | src/renderer/vk_swapchain.c:229-232 | a non-null old swapchain is destroyed last, whatever the creation returned |
| Swapchain.RecreateLogSplit | src/renderer/vk_swapchain.c:212-235 | the recreation's events are the retirement's, then the creation's starting with the swapchain, then the old swapchain's destruction |
| Swapchain.CreateAfterRetire | src/renderer/vk_swapchain.c:226-227 | the new swapchain is created while the old one is still live and retired, under the ownership invariant |
| Swapchain.RecreateExtendsLog | src/renderer/vk_swapchain.c:212-235 | recreation only appends to the device's history |
| Sync.Create | src/renderer/vk_sync.c:5-44 | the context starts at slot 0; the objects are made slot by slot and the first failure's result is returned; success exactly when all six exist |
| Sync.CreatedSignalled | src/renderer/vk_sync.c:15-18 | a slot's fence starts signalled exactly when it was created |
| Sync.CreatedPrefix | src/renderer/vk_sync.c:20-40 | the objects that exist after creation are exactly a prefix of the creation order |
| Sync.CreatedFrame | src/renderer/vk_sync.c:5-44 | creation touches nothing outside the sync context |
| Sync.Destroy | src/renderer/vk_sync.c:46-61 | every non-null handle is destroyed, all six end null and the context is zeroed; an empty context is destroyed without effect |
| Sync.DestroyIdempotent | src/renderer/vk_sync.c:46-61 | destroying twice is the same as destroying once |
| Sync.CreateDestroyBalanced | src/renderer/vk_sync.c:5-61 | with a live device, creating and destroying restores the live set and table with no fault, whatever failed in between |
| Sync.CreateKeeps | src/renderer/vk_sync.c:5-44 | creation keeps the ownership invariant and with a live device raises no fault |
| Sync.DestroyKeeps | src/renderer/vk_sync.c:46-61 | destruction keeps the ownership invariant and raises no fault |
| Sync.ResetFence | src/renderer/vk_sync.c:67-69 | a successful reset unsignals the current slot's fence only; a failed one changes nothing; the driver's result is returned |
| Sync.CurrentFrame | src/renderer/vk_sync.c:71-73 | the current slot's three objects, distinct from every other slot's |
| Sync.Advance | src/renderer/vk_sync.c:75-77 | the slot moves to the next one modulo the frames in flight, always a different slot, fences untouched |
| Sync.AdvanceTwice | src/renderer/vk_sync.c:75-77 | with two frames in flight, advancing twice returns to the same slot |
| Buffer.Create | src/renderer/vk_buffer.cpp:6-63 | corrected (each destroyed handle is also cleared; see Findings): the result is that of the first failing step (no fitting memory type gives out-of-device-memory); success exactly when both the buffer and its memory are recorded; nothing but the two fields changes. As written, a failure after the buffer was made leaves the destroyed handles in the two fields (`Buffer.AsWrittenCreate`) |
| Buffer.CreateEffects | src/renderer/vk_buffer.cpp:21-62 | a failed creation leaves the live objects as they were; a successful one adds exactly a fresh buffer and a fresh memory object; with a live device no fault is raised |
| Buffer.NoTypeEffects | src/renderer/vk_buffer.cpp:41-44 | when no memory type fits, the buffer is destroyed and the result is out-of-device-memory |
| Buffer.AllocFailEffects | src/renderer/vk_buffer.cpp:46-51 | a failed allocation destroys the buffer and returns the allocation's result |
| Buffer.BindFailEffects | src/renderer/vk_buffer.cpp:54-60 | a failed bind frees the memory, then destroys the buffer, and returns the bind's result |
| Buffer.BoundEffects | src/renderer/vk_buffer.cpp:54-62 | a successful bind leaves both objects live and recorded |
| Buffer.AsWrittenCreate | src/renderer/vk_buffer.cpp:41-60 | as written, the failure paths destroy the buffer but leave its handle in the context |
| Buffer.AsWrittenFailureDangles | src/renderer/vk_buffer.cpp:41-60 | as written, a failure after the buffer exists leaves a recorded buffer handle that is no longer live |
| Buffer.AsWrittenFailureDoubleDestroys | src/renderer/vk_buffer.cpp:41-73 | as written, destroying the context after any such failure destroys the buffer a second time |
| Buffer.AsWrittenNoMemoryTypeDoubleDestroys | src/renderer/vk_buffer.cpp:41-44 | the concrete case: a 64-byte buffer with no fitting memory type returns out-of-device-memory, and the later destroy is one fault |
| Buffer.Destroy | src/renderer/vk_buffer.cpp:65-74 | the non-null buffer and memory are destroyed and both fields end null; an empty context is destroyed without effect |
| Buffer.DestroyIdempotent | src/renderer/vk_buffer.cpp:65-74 | a second destroy does nothing |
| Buffer.CreateDestroyBalanced | src/renderer/vk_buffer.cpp:6-74 | corrected (over the corrected `Buffer.Create`): creating and destroying again, whatever failed in between, restores the live objects, with no fault under a live device |
| Buffer.CopyData | src/renderer/vk_buffer.cpp:76-90 | a failed map changes nothing and returns its result; otherwise the first `size` bytes become the data and the rest are kept |
| Buffer.CreateStaged | src/renderer/vk_buffer.cpp:113-203 | the upload asks for a host-visible staging buffer, then (only once it is filled) a device-local target with the caller's usage; the result is the first failing step's; on success the target holds the data |
| Buffer.Transfer | src/renderer/vk_buffer.cpp:137-156 | the second half of an upload returns the target's failure, or the copy's result, and on success the target holds the staged bytes |
| Buffer.TransferFields | src/renderer/vk_buffer.cpp:137-156 | corrected: afterwards the staging buffer is null, the target is set on success and null on failure, and nothing else changes; as written, a target whose creation failed keeps the destroyed handles |
| Buffer.StagedFields | src/renderer/vk_buffer.cpp:113-203 | corrected: after an upload the staging buffer is always null; the target is set exactly on success and untouched when the upload stopped before creating it; as written, a failed creation of either buffer leaves its destroyed handles |
| Buffer.StagingDestroyedOnce | src/renderer/vk_buffer.cpp:130-148 | once the staging buffer exists, every path destroys it and its memory exactly once |
| Buffer.TransferDestroysStagingOnce | src/renderer/vk_buffer.cpp:141-148 | the second half destroys the live staging buffer and memory exactly once each |
| Buffer.StagedLive | src/renderer/vk_buffer.cpp:113-203 | a failed upload leaves live exactly what was live before; a successful one adds exactly the target's buffer and memory |
| Buffer.CreateSparesLive | src/renderer/vk_buffer.cpp:6-63 | a creation never destroys an object that was live before it |
| Buffer.CreateKeeps | src/renderer/vk_buffer.cpp:6-63 | corrected: creating into an empty context keeps the ownership invariant, and with a live device raises no fault |
| Buffer.DestroyKeeps | src/renderer/vk_buffer.cpp:65-74 | destroying keeps the ownership invariant and raises no fault |
| Buffer.StagedKeeps | src/renderer/vk_buffer.cpp:113-203 | corrected: an upload into an empty target keeps the ownership invariant |
| Input.Init | src/platform/input.c:57-68 | every key and button is up, now and in the previous frame, and events of every window are accepted |
| Input.AttachWindow | src/platform/input.c:70-72 | only the attached window id changes |
| Input.Update | src/platform/input.c:74-82 | the current key and button arrays become the previous ones, the current ones are kept |
| Input.MatchesWindow | src/platform/input.c:23-42 | an event is accepted exactly when no window is attached, or its type carries no window id, or its window id is the attached one |
| Input.ButtonIndex | src/platform/input.c:44-55 | left, middle and right map to their own slot and every other button to -1 |
| Input.HandleEvent | src/platform/input.c:84-123 | an event for another window changes nothing; events never touch the previous-frame arrays or the attached window |
| Input.KeyPressed | src/platform/input.c:129-131 | a pressed key is down |
| Input.KeyReleased | src/platform/input.c:133-135 | a released key is up |
| Input.MousePressed | src/platform/input.c:141-143 | a pressed button is down |
| Input.MouseReleased | src/platform/input.c:145-147 | a released button is up |
| Input.EdgesExclusive | src/platform/input.c:129-147 | no key, and no button, is pressed and released at once |
| Input.UpdateClearsEdges | src/platform/input.c:74-82 | right after a frame boundary no key or button has an edge |
| Input.KeyEventEdges | src/platform/input.c:90-96 | after a frame boundary, an accepted key event makes its key pressed exactly when it is a press of a key that was up and released exactly when it is a release of a key that was down; every other key is unchanged and edge-free |
| Input.KeyDownFollowsEvents | src/platform/input.c:125-127 | after a key event for this window with an in-range scancode, that key reads down exactly when the event was a press, and every other key reads as before |
| Input.MouseDownFollowsEvents | src/platform/input.c:137-139 | after a button event for this window with a known button, that button reads down exactly when the event was a press; other buttons and every key read as before |
| Input.OutOfRangeKeyIgnored | src/platform/input.c:92-95 | a key event with an out-of-range scancode changes nothing |
| Input.ButtonEvents | src/platform/input.c:97-103 | only the three known buttons are recorded, each in its own slot, and any other button changes nothing |
| Input.WindowFilter | src/platform/input.c:23-42 | once a window is attached, its filtered events for other windows are dropped; with no window attached everything passes |
| Window.ToU32 | src/platform/window.c:12-13 | the C cast to u32 is the identity on representable values and otherwise agrees modulo 2^32 |
| Window.UpdateSize | src/platform/window.c:8-15 | the size becomes the reported pixel size cast to u32; the window is minimised exactly when either dimension is zero; nothing else changes |
| Window.HandleWindowEvent | src/platform/window.c:17-47 | the handle and window id never change, and neither the close flag nor the resized flag is ever cleared by an event |
| Window.HandleEvent | src/platform/window.c:17-50 | the two halves of the dispatch do not interfere: a key, button, motion or wheel event leaves the window flags as they were, and a window or quit event leaves the key and button state as it was |
| Window.PollEvents | src/platform/window.c:117-122 | polling keeps the handle and window id |
| Window.Create | src/platform/window.c:77-104 | success exactly when SDL returns a window; failure writes only a null handle and returns the window error; success records the id and the pixel size, with every flag clear |
| Window.Destroy | src/platform/window.c:106-113 | afterwards there is no handle; an open window is asked to close; without a handle nothing changes |
| Window.FramebufferSize | src/platform/window.c:135-144 | representable pixel sizes are returned as they are |
| Window.ResetResized | src/platform/window.c:175 | only the resized flag is cleared |
| Window.ResizeEvents | src/platform/window.c:37-43 | a resize for this window sets the resized flag and the pixel size and marks it minimised exactly when the size has no area; a window event for another window changes nothing |
| Window.MinimizeRestore | src/platform/window.c:27-36 | minimising and then restoring this window leaves it not minimised with every other field unchanged |
| Window.PollCloses | src/platform/window.c:17-26 | the close flag stays set while polling, and a quit event or a close request for this window anywhere in the batch sets it |
| Window.DestroyIdempotent | src/platform/window.c:106-113 | destroying twice is destroying once, and a destroyed window asks to close |
| Window.CreateThenResize | src/platform/window.c:77-104 | a fresh window is not resized or closing; a resize event naming it sets the resized flag and resetting clears it again |
| RendererSwapchain.CreateFramebuffers | src/renderer/renderer_swapchain.c:7-36 | the count is set to the image count before anything else; more images than slots fails with an initialisation error creating nothing; framebuffers are made in order up to the first failure, whose result is returned; success exactly when every image has one |
| RendererSwapchain.CreateFramebuffersTable | src/renderer/renderer_swapchain.c:13-32 | exactly the first `made` framebuffer slots are filled and no other field changes |
| RendererSwapchain.CreateFramebuffersKeeps | src/renderer/renderer_swapchain.c:7-36 | creating into empty slots keeps the ownership invariant, and with a live device raises no fault |
| RendererSwapchain.AsWrittenDestroyFramebuffers | src/renderer/renderer_swapchain.c:38-47 | as written, the handles under the count are destroyed but stay in the array, and the count drops to zero |
| RendererSwapchain.DestroyFramebuffers | src/renderer/renderer_swapchain.c:38-47 | corrected: every framebuffer under the count is destroyed and cleared, the count drops to zero, and nothing else changes |
| RendererSwapchain.DestroyFramebuffersKeeps | src/renderer/renderer_swapchain.c:38-47 | the corrected destruction keeps the ownership invariant and raises no fault |
| RendererSwapchain.CreateRenderFinished | src/renderer/renderer_swapchain.c:49-69 | one semaphore per image, made in order up to the first failure, whose result is returned; success exactly when all were made |
| RendererSwapchain.CreateRenderFinishedTable | src/renderer/renderer_swapchain.c:54-66 | on success every image has its semaphore; on failure the ones already made are destroyed and cleared, so none remains; nothing else changes |
| RendererSwapchain.CreateRenderFinishedKeeps | src/renderer/renderer_swapchain.c:49-69 | creating into empty slots keeps the ownership invariant, and with a live device raises no fault, including the rollback |
| RendererSwapchain.DestroyRenderFinished | src/renderer/renderer_swapchain.c:71-79 | every semaphore under the image count is destroyed and cleared, and nothing else changes |
| RendererSwapchain.DestroyRenderFinishedKeeps | src/renderer/renderer_swapchain.c:71-79 | destroying the semaphores keeps the ownership invariant and raises no fault |
| RendererSwapchain.SwapStep | src/renderer/renderer_swapchain.c:86-92 | destroying the semaphores and recreating the swapchain changes only the table, the device history and the swapchain state |
| RendererSwapchain.SwapStepKeeps | src/renderer/renderer_swapchain.c:85-92 | corrected (over the corrected `Swapchain.Recreate`): with no framebuffer left, that step keeps the ownership invariant, leaves every semaphore and framebuffer slot empty, and raises no fault when the device and surface exist |
| RendererSwapchain.ClearImages | src/renderer/renderer_swapchain.c:94-95 | the per-image fence copies become null and every semaphore slot is cleared; nothing else changes |
| RendererSwapchain.BuildStep | src/renderer/renderer_swapchain.c:94-102 | after the swapchain, the fence copies are cleared and the semaphores then the framebuffers are created; success means it reached the framebuffers; a semaphore failure leaves the count alone |
| RendererSwapchain.BuildStepSucceeds | src/renderer/renderer_swapchain.c:97-102 | a successful build gives every image a semaphore and a framebuffer, with the count equal to the image count |
| RendererSwapchain.BuildStepSemaphoreFails | src/renderer/renderer_swapchain.c:97-100 | after a semaphore failure every semaphore and framebuffer slot is empty |
| RendererSwapchain.BuildStepFramebufferFails | src/renderer/renderer_swapchain.c:102 | after a framebuffer failure the count is the image count and only the first framebuffers made exist |
| RendererSwapchain.BuildStepKeeps | src/renderer/renderer_swapchain.c:94-102 | building into empty slots keeps the ownership invariant and the device and surface, raising no fault under a live device |
| RendererSwapchain.Rebuild | src/renderer/renderer_swapchain.c:86-102 | success means every stage ran; if the swapchain failed, the fence copies are untouched; past it they are null; a stop before the framebuffers keeps the count |
| RendererSwapchain.AsWrittenRecreateSwapchain | src/renderer/renderer_swapchain.c:81-103 | the recreation with the framebuffer destruction as written, which leaves handles behind; the swapchain creation inside it is the corrected one |
| RendererSwapchain.RecreateSwapchain | src/renderer/renderer_swapchain.c:81-103 | the corrected recreation: success means it reached the framebuffers; a swapchain failure leaves the fence copies; any stop before the framebuffers leaves the count at zero |
| RendererSwapchain.RecreateKeeps | src/renderer/renderer_swapchain.c:81-103 | corrected (corrected framebuffer destruction and `Swapchain.Create`): recreating keeps the ownership invariant, and with the device and surface recorded keeps them and raises no fault |
| RendererSwapchain.RecreateOutcome | src/renderer/renderer_swapchain.c:81-103 | corrected (over the corrected `Swapchain.Create`): on success every new image has its semaphore and framebuffer and the count matches; a swapchain failure leaves no swapchain, semaphore or framebuffer; a semaphore failure leaves no semaphore or framebuffer; unrelated renderer fields are untouched |
| RendererSwapchain.RecreateKeepsSlots | src/renderer/renderer_swapchain.c:81-103 | a recreation writes only the swapchain, its views, the semaphore and framebuffer slots |
| RendererSwapchain.RebuildExtendsLog | src/renderer/renderer_swapchain.c:86-102 | the device's history only grows across a rebuild |
| RendererSwapchain.AsWrittenDestroysSecond | src/renderer/renderer_swapchain.c:38-44 | as written, destroying the framebuffers destroys the second one's handle once more |
| RendererSwapchain.RebuildKeepsLaterFramebuffers | src/renderer/renderer_swapchain.c:26-31 | when the first framebuffer fails, the later slots keep what they held before the rebuild |
| RendererSwapchain.AsWrittenStaleFramebufferDestroyedTwice | src/renderer/renderer_swapchain.c:38-47 | as written, when a recreation's first framebuffer fails, the next destruction destroys the old second framebuffer a second time |
| RendererSwapchain.RecreateThenDestroyClean | src/renderer/renderer_swapchain.c:38-103 | with the corrected destruction, destroying the framebuffers after any recreation raises no fault and leaves no framebuffer handle |
| RendererFrame.Resize | src/renderer/renderer_frame.cpp:178-202 | without a window it is a generic error and nothing changes; the frame slots and window are never touched; any other outcome is success or a Vulkan error |
| RendererFrame.ResizeFlag | src/renderer/renderer_frame.cpp:183-201 | a window with no area only marks the swapchain stale and succeeds; otherwise success exactly when the recreation succeeded, which clears the mark, and a failed recreation is a Vulkan error that keeps the mark |
| RendererFrame.ResizeKeeps | src/renderer/renderer_frame.cpp:178-202 | corrected (over the corrected recreation): a resize keeps the ownership invariant and with the device and surface recorded raises no fault |
| RendererFrame.ResizeBorrows | src/renderer/renderer_frame.cpp:178-202 | after a resize every per-image fence is still null or one of the frame slots' fences |
| RendererFrame.RecreateBorrows | src/renderer/renderer_swapchain.c:81-103 | a recreation keeps every per-image fence null or borrowed from a frame slot |
| RendererFrame.FlagKeepsOwned | src/renderer/renderer_frame.cpp:16-18 | the stale mark plays no part in the ownership invariant |
| RendererFrame.Draw | src/renderer/renderer_frame.cpp:11-176 | a frame ends in success, a generic error or a Vulkan error, with the device history and frame slots well formed |
| RendererFrame.DrawAdvances | src/renderer/renderer_frame.cpp:148-175 | the frame slot moves to the next one exactly when every step through submission succeeded and the presentation succeeded; on every other path it stays |
| RendererFrame.DrawStatus | src/renderer/renderer_frame.cpp:12-43 | a missing camera is a generic error with nothing changed; a failed fence wait is a Vulkan error with nothing changed; a generic error means no camera or a resize without a window |
| RendererFrame.DrawRecordsFence | src/renderer/renderer_frame.cpp:45-59 | once the slot's fence is reset, the acquired image records that fence, the other images keep theirs and the fence is unsignalled; a frame that stops earlier without resizing changes nothing |
| RendererFrame.MinimizedIdles | src/renderer/renderer_frame.cpp:16-18 | while the swapchain is stale and the window has no area, every frame succeeds and changes nothing |
| RendererFrame.DrawKeeps | src/renderer/renderer_frame.cpp:11-176 | corrected (its resize path uses the corrected recreation): a frame keeps the ownership invariant and the per-image fences borrowed, and with the device and surface recorded raises no fault |
| RendererInit.WholeIsOwned | src/renderer/renderer_internal.h:15-37 | the renderer-lifetime invariant includes the ownership invariant the frame code relies on |
| RendererInit.Zeroed | src/renderer/renderer_init.cpp:350-351 | the renderer after the final memset holds no handle, no mesh, no framebuffer, no image and no window |
| RendererInit.DestroyUniform | src/renderer/renderer_init.cpp:9-16 | one slot: a mapped uniform with memory is unmapped, the buffer is destroyed and the slot's fields cleared; nothing else changes; only objects are removed; a buffer field naming a destroyed object is destroyed again, a fault |
| RendererInit.DestroyUniforms | src/renderer/renderer_init.cpp:9-16 | every frame slot's uniform fields are cleared and only they change; a slot stays marked mapped only when it had no memory; a dangling buffer field in either slot raises a fault |
| RendererInit.DestroyCameraUniforms | src/renderer/renderer_init.cpp:8-22 | afterwards every camera field, the descriptor pool included, is null and nothing else changes; the ownership invariant holds with no fault when it held before; a uniform buffer field naming a destroyed object raises a fault |
| RendererInit.CreateUniform | src/renderer/renderer_init.cpp:31-52 | corrected (over the corrected `Buffer.Create`): slot `i`'s result is that of the buffer creation, then the mapping; the buffer and memory exist exactly when the creation succeeded; the slot is mapped exactly on success |
| RendererInit.CreateSlot | src/renderer/renderer_init.cpp:30-53 | corrected: one iteration over a cleared slot: on success the slot is held and mapped; on failure the rollback leaves every camera field empty with no fault |
| RendererInit.AsWrittenCreateUniform | src/renderer/renderer_init.cpp:31-39 | with the buffer creation as written, the slot's result is still that of the creation, then the mapping; a creation that made the buffer and then failed leaves the slot naming a destroyed buffer |
| RendererInit.AsWrittenCreateSlot | src/renderer/renderer_init.cpp:30-39 | as written, the loop's rollback still empties the camera fields and reports the slot's result, but after a creation that made the buffer and then failed it destroys that buffer again, a fault |
| RendererInit.CreateUniforms | src/renderer/renderer_init.cpp:30-53 | corrected: succeeds exactly when both slots succeed, leaving both held and mapped; on failure every camera field is empty |
| RendererInit.CameraRollback | src/renderer/renderer_init.cpp:36-91 | two states that differ only in camera fields, both empty, have the same live objects: a rollback frees exactly what the creation made |
| RendererInit.CreatePool | src/renderer/renderer_init.cpp:55-91 | the pool and the sets succeed exactly when both calls do; on failure every camera field is empty again |
| RendererInit.CreateCameraUniforms | src/renderer/renderer_init.cpp:24-114 | corrected (over the corrected `Buffer.Create`): succeeds exactly when every step does, leaving every camera field held and both slots mapped; on any failure every camera field is empty; no other field changes; from an empty start the live objects come back as they were on failure |
| RendererInit.CreateFromCleared | src/renderer/renderer_init.cpp:30-113 | corrected: the creation steps over cleared contexts: the same all-or-nothing outcome as the whole operation |
| RendererInit.UploadBuffer | src/renderer/vk_buffer.cpp:113-203 | corrected (over the corrected `Buffer.Create`): one staged upload into a mesh buffer context: held on success, still empty on failure, the staging buffer always empty, nothing outside the two contexts changed |
| RendererInit.UploadIndexOrUndo | src/renderer/renderer_init.cpp:140-149 | corrected: the index upload; on failure the slot's vertex buffer is destroyed so the slot is empty again |
| RendererInit.UploadSlot | src/renderer/renderer_init.cpp:130-149 | corrected: both uploads succeed or the slot is left empty, with the staging buffer empty either way |
| RendererInit.MeshSame | src/renderer/renderer_init.cpp:135-149 | corrected: a failed mesh upload leaves every field as it was |
| RendererInit.MeshWhole | src/renderer/renderer_init.cpp:151-153 | a mesh upload into the first free slot keeps the renderer invariant |
| RendererInit.FreeSlotEmpty | src/renderer/renderer_init.cpp:126-127 | corrected: the first free mesh slot and the staging context hold nothing |
| RendererInit.UploadMesh | src/renderer/renderer_init.cpp:116-157 | corrected (over the corrected `Buffer.Create`): a full mesh table is a generic error with nothing changed; success exactly when both uploads succeed, which records the index count, grows the mesh count by one and returns the slot; any upload failure is a Vulkan error that leaves the count, the live objects and the invariant as they were |
| RendererLifetime.Step | src/renderer/renderer_init.cpp:311-348 | every object has a teardown step from 1 (the meshes) to 12 (the instance), or 0 for the objects a renderer holds only inside a call |
| RendererLifetime.ChildrenFirst | src/renderer/renderer_init.cpp:311-348 | the teardown order destroys every child before its parent, and every device child by step 9, before the device |
| RendererLifetime.DestroyMeshes | src/renderer/renderer_init.cpp:311-317 | every uploaded mesh's index and vertex buffers are destroyed and cleared, the mesh count drops to zero, and no fault is raised |
| RendererLifetime.DestroyOne | src/renderer/renderer_init.cpp:326-336 | destroying one object clears exactly its field, and raises no fault once it has no children |
| RendererLifetime.DestroyBuffers | src/renderer/renderer_init.cpp:311-324 | the meshes, the camera uniforms and the framebuffers are torn down: steps 1 to 3 done, no fault |
| RendererLifetime.DestroyPipelineToSync | src/renderer/renderer_init.cpp:326-336 | the pipeline, render pass, command pool and frame-slot objects are torn down: steps 4 to 7 done, no fault |
| RendererLifetime.DestroySwapchainToDevice | src/renderer/renderer_init.cpp:337-339 | the render-finished semaphores, the swapchain with its views, then the device are torn down: steps 8 to 10 done, no fault |
| RendererLifetime.DestroySurfaceStep | src/renderer/renderer_init.cpp:342-344 | the surface is destroyed only when it and the instance exist; afterwards step 11 is done with no fault |
| RendererLifetime.DestroyInstanceStep | src/renderer/renderer_init.cpp:346-348 | the instance is destroyed when it exists; afterwards every step is done with no fault |
| RendererLifetime.NoDeviceDone | src/renderer/renderer_init.cpp:305-340 | without a device nothing the first ten steps destroy can be recorded, so skipping them leaves nothing behind |
| RendererLifetime.DoneAllNull | src/renderer/renderer_init.cpp:342-350 | once all twelve steps are done no handle remains |
| RendererLifetime.Destroy | src/renderer/renderer_init.cpp:298-352 | the renderer ends zeroed; from a renderer satisfying the whole-renderer invariant (`Whole`) every object it created is destroyed, nothing is left live and no fault is raised |
| RendererCreate.Rank | src/renderer/renderer_init.cpp:188-285 | every object field is created by exactly one of the twelve stages of `renderer_create` (numbered 1 to 12) |
| RendererCreate.CameraRank | src/renderer/renderer_init.cpp:273-278 | the fields the camera-uniform code fills are exactly those of the camera stage (stage 10) |
| RendererCreate.ReachedScoped | src/renderer/renderer_init.cpp:188-285 | a renderer that has reached any stage keeps its objects in scope, and every device child has its device recorded |
| RendererCreate.StageReached | src/renderer/renderer_init.cpp:188-285 | a stage that fills exactly the in-scope objects of its rank moves the renderer on to the next stage |
| RendererCreate.StageScoped | src/renderer/renderer_init.cpp:293-295 | a stage that fails part-way still records only objects in scope, so the teardown on the `fail` path sees a consistent renderer |
| RendererCreate.ZeroedWhole | src/renderer/renderer_init.cpp:166-173 | the zeroed renderer, bound to its window, on a device with nothing live keeps the lifetime invariant and stands before stage 1 |
| RendererCreate.VkStatus | src/renderer/renderer_init.cpp:189-193 | a graphics result maps to success exactly when it is `VK_SUCCESS` and to the Vulkan error otherwise |
| RendererCreate.SingleOf | src/renderer/renderer_init.cpp:188-271 | the instance, surface, command pool, render pass and pipeline stages each create exactly one object field |
| RendererCreate.MakeSingle | src/renderer/renderer_init.cpp:188-200 | a single-object creation records the handle exactly when the driver succeeds, changes nothing else and moves the renderer on a stage |
| RendererCreate.DeviceStage | src/renderer/renderer_init.cpp:202-207 | device creation succeeds exactly when the device result is success and selection can succeed (the device list's push served and some device scoring above zero), and then the renderer has passed stage 3 |
| RendererCreate.SwapchainRank | src/renderer/vk_swapchain.c:167-190 | after a swapchain creation every image-view slot past the image count is null |
| RendererCreate.SwapchainCall | src/renderer/renderer_init.cpp:209-212 | corrected (over the corrected `Swapchain.Create`): swapchain creation from the window's framebuffer size touches only swapchain fields and on success records the swapchain and one view per image |
| RendererCreate.AsWrittenSwapchainCall | src/renderer/renderer_init.cpp:209-217 | with the swapchain creation as written, a first image view that fails makes the stage fail while the context still names the destroyed swapchain, so the failure path's destroy faults |
| RendererCreate.ReachedParents | src/renderer/renderer_init.cpp:188-207 | a renderer past the device stage holds its instance, surface and device |
| RendererCreate.SwapchainStage | src/renderer/renderer_init.cpp:209-217 | corrected: the swapchain stage keeps the lifetime invariant and on success the renderer has passed stage 4 |
| RendererCreate.RenderFinishedPast | src/renderer/renderer_swapchain.c:49-69 | creating the render-finished semaphores leaves every slot past the image count as it was |
| RendererCreate.SameReached | src/renderer/renderer_init.cpp:219-220 | clearing the fences borrowed per image keeps the stage reached, and no render-finished semaphore is yet recorded |
| RendererCreate.ClearImages | src/renderer/renderer_init.cpp:219-220 | the two `memset`s null every borrowed per-image fence and change no owned handle |
| RendererCreate.RenderFinishedCall | src/renderer/renderer_init.cpp:222-227 | on success every image has a render-finished semaphore; on failure every slot up to the failing one is null again; slots past that are untouched |
| RendererCreate.RenderFinishedStage | src/renderer/renderer_init.cpp:219-227 | the render-finished stage keeps the lifetime invariant, nulls the borrowed fences and on success has passed stage 5 |
| RendererCreate.SyncRank | src/renderer/vk_sync.c:5-44 | the frame-slot objects are exactly the fields of the two frames in flight |
| RendererCreate.SyncCall | src/renderer/renderer_init.cpp:229-234 | `vk_sync_create` records exactly the first `made` frame-slot objects and changes no other field |
| RendererCreate.SyncStage | src/renderer/renderer_init.cpp:229-234 | the sync stage keeps the lifetime invariant and on success has passed stage 6 |
| RendererCreate.CameraStage | src/renderer/renderer_init.cpp:273-278 | corrected (over the corrected `Buffer.Create`): the camera stage records all its uniform objects and maps both slots on success, leaves them all null on failure, and touches no other field |
| RendererCreate.FramebufferStage | src/renderer/renderer_init.cpp:280-285 | the framebuffer stage keeps the lifetime invariant, records one framebuffer count per swapchain image and on success has passed the last stage |
| RendererCreate.SingleStage | src/renderer/renderer_init.cpp:236-271 | the command pool, render pass and pipeline stages succeed exactly on their script, and an out-of-memory status comes only from the render-pass or pipeline arena push |
| RendererCreate.Stage | src/renderer/renderer_init.cpp:188-285 | corrected: each stage keeps the lifetime invariant and the fault count, moves the renderer on a stage on success, and reports only success, the Vulkan error or out of memory |
| RendererCreate.ReachedFull | src/renderer/renderer_init.cpp:287-291 | a renderer past the last stage holds exactly the objects in scope |
| RendererCreate.Create | src/renderer/renderer_init.cpp:159-296 | corrected (over the corrected `Buffer.Create` and `Swapchain.Create`): creation hands back a renderer exactly on success, with every object it owns, a framebuffer per image, both uniform slots mapped and no mesh; any failure tears down to nothing live, and no object is destroyed while a child lives |
| RendererLegacy.DrawFrame | src/renderer/renderer.c:235-365 | the earlier frame creates and destroys nothing and marks the swapchain stale exactly when the acquisition or the presentation reported it stale |
| RendererLegacy.DrawFrameEarlyReturns | src/renderer/renderer.c:240-253 | a stale acquisition only sets the mark; any other failed acquisition returns with the renderer untouched |
| RendererLegacy.DrawFrameRecordsFence | src/renderer/renderer.c:255-261 | after an acquisition the current slot's fence is reset and lent to the acquired image; other images and the other slot are unchanged |
| RendererLegacy.DrawFrameAdvances | src/renderer/renderer.c:337-364 | the frame slot moves on exactly when an image was acquired and the submission succeeded, whatever the presentation answered |
| RendererLegacy.DrawFrameKeeps | src/renderer/renderer.c:235-365 | a frame keeps the ownership invariant and every per-image fence stays one borrowed from a frame slot |
| RendererLegacy.PresentErrorStillAdvances | src/renderer/renderer.c:355-364 | a presentation error other than a stale swapchain moves the earlier revision's slot on, while the later revision keeps the slot and reports the error |
| RendererLegacy.RecreateSwapchain | src/renderer/renderer.c:426-449 | recreation succeeds only once the framebuffers are rebuilt, and clears the borrowed fences unless the swapchain itself failed; a freshly pushed framebuffer array is taken as zeroed |
| RendererLegacy.RecreateKeeps | src/renderer/renderer.c:426-449 | corrected (a zeroed framebuffer array and the corrected `Swapchain.Create`): recreation keeps the ownership invariant, raises no fault with the device and surface recorded, and leaves nothing a later framebuffer destruction would destroy twice |
| RendererLegacy.AsWrittenUninitialisedFramebufferDestroyed | src/renderer/renderer.c:385-421 | a framebuffer array whose entries are not zeroed: when the first framebuffer fails, the count still covers every image, and the destruction destroys a leftover entry past the failure |
| RendererLegacy.RenderFinishedRollback | src/renderer/renderer.c:451-477 | a failed semaphore creation destroys the ones it made, so the device is back to its live objects; success gives each image one; destruction clears every slot |
| RendererLegacy.HandleResize | src/renderer/renderer.c:367-378 | a window with no area leaves the renderer untouched; otherwise the swapchain is recreated and the stale mark cleared |
| RendererLegacy.ResizeForgetsFailure | src/renderer/renderer.c:367-378 | corrected (over the corrected `Swapchain.Create`): a resize whose recreation failed still clears the stale mark, leaving no swapchain, framebuffers or semaphores behind |
| RendererLegacy.ResizeKeeps | src/renderer/renderer.c:367-378 | corrected (over the corrected recreation): a resize keeps the ownership invariant and the borrowed fences, and raises no fault with the device and surface recorded |
| RendererLegacy.NeedsRoots | src/renderer/renderer.c:18-179 | only the instance, surface and device steps create parents, and each comes earlier than the steps that need it |
| RendererLegacy.AsWrittenUnwind | src/renderer/renderer.c:31-175 | each failure branch of `renderer_init` destroys only steps created before the failing one |
| RendererLegacy.AsWrittenInitLeaks | src/renderer/renderer.c:93-175 | from the command pool on, the failure branches leak the render-finished semaphores while destroying their device; a failed framebuffer step leaks the framebuffers made; a failed vertex or index buffer leaks everything; before the command pool nothing leaks |
| RendererLegacy.Unwind | src/renderer/renderer.c:31-175 | the corrected unwinding destroys exactly the live steps, latest first, each child before its parent |
| RendererLegacy.UnwindAgreesBeforeCommand | src/renderer/renderer.c:31-89 | up to the sync objects the written unwinding is exactly the corrected one |
| RendererLegacy.ShutdownChildrenFirst | src/renderer/renderer.c:181-233 | shutdown destroys every step's objects, each child before its parent |

## Left out

- Null-pointer argument checks (`if(!ctx) return …`) are not modelled. Every record passed in exists; the missing camera of `renderer_draw` and the missing memory config stay, as explicit options.
- Logging (`LOG_*`) and the shader, file and configuration plumbing have no effect on the modelled state.
- `vk_device_wait_idle`, `renderer_wait_idle` and `window_wait_events` block on the device or the event queue. They change no modelled state.
- The waits inside a frame (`vk_sync_wait_for_fence`, the per-image `vkWaitForFences`) are result parameters. Real GPU/CPU concurrency is out of scope, and fence signalling is an explicit `Sync.Signal` step.
- Floating point is left out: the camera matrices and the uniform build, clear colours, viewport, mouse position, delta and scroll (`input.c:149-167`). Quad positions and colours are kept as unbounded reals, without rounding.
- These SDL and Vulkan calls are answers the model is given, not code it runs: `window_system_init`/`shutdown`, `window_create_surface`, `window_get_required_extensions`, `vk_swapchain_query_support`, instance, command pool, render pass, pipeline and shader creation, and the command recording inside a frame.
- `window_config_default`, `window_should_close` and `window_set_user_pointer` are field reads and writes with nothing to prove.
- `arena.c`'s `arena_create`, `arena_destroy`, `arena_clear`, `arena_temp_begin` and `arena_temp_end` match `arena.cpp`'s. They are modelled once, in `Arena`.
- `MAX_MESHES` is not defined in the modelled sources, so the mesh-table capacity is a parameter (`maxMeshes`) of `RendererInit.UploadMesh`.
- RendererCreate.Create: requires a device ledger with nothing live and a surface reporting at least one format. Its status contract names the three statuses and the out-of-memory causes, but not which Vulkan stage failed.
- RendererCreate.Create: the arena pushes of the renderer, render-pass and pipeline contexts are boolean answers. The bytes they take from the arena are not modelled.
- RendererLegacy.AsWrittenUnwind: the unwinding of `renderer_init` is modelled as which creation steps each failure branch destroys, not on the handle ledger.
- RendererLegacy.DrawFrame: the results of the fence waits, of `vk_command_begin`/`end` and of the fence reset's caller are ignored by the source, and so are not parameters.
- RendererLegacy.RecreateSwapchain: the entries of a freshly pushed framebuffer array are modelled as null. In the source they are uninitialised arena memory. When a framebuffer fails, the count still covers every image, so `destroy_framebuffers` reads and destroys the entries past the failure (see Findings).
- RendererLegacy.RecreateKeeps: holds only for a zeroed framebuffer array; `RendererLegacy.AsWrittenUninitialisedFramebufferDestroyed` shows a leftover entry being destroyed.
- The legacy `create_framebuffers` does not check its `ARENA_PUSH_ARRAY`, and the model takes the array as always obtained.
- Swapchain.ChooseSurfaceFormat: requires at least one reported surface format, and so do `Swapchain.Create`, `Swapchain.Recreate` and their renderer-level callers. `vk_swapchain.c:41` reads `formats[0]` without a check, relying on the Vulkan specification's guarantee (section 34.5, "Surface Queries") that a supported surface reports at least one format.
- Swapchain.CreateDestroyBalanced: holds for the corrected creation only; as written, a view failure makes the destroy fault (`Swapchain.AsWrittenDestroyFaults`).
- Buffer.CreateDestroyBalanced: holds for the corrected creation only; as written, a failure after the buffer was made makes the destroy fault (`Buffer.AsWrittenFailureDoubleDestroys`).
- RendererInit.UploadMesh: the invariant after a failed upload holds over the corrected `Buffer.Create` only; as written the failed creation leaves destroyed handles in slot `mesh_count` (`Buffer.AsWrittenFailureDangles`).
- Swapchain.CreateSteps: states the corrected creation, which clears the swapchain handle after a view failure; the source keeps the destroyed handle (`Swapchain.AsWrittenCreate`).
- Swapchain.CreateKeeps: holds for the corrected creation only; as written a view failure leaves a destroyed swapchain recorded and the next destroy faults (`Swapchain.AsWrittenDestroyFaults`).
- Swapchain.Recreate: composes the corrected `Swapchain.Create`; as written a failed view of the new swapchain leaves its destroyed handle (`Swapchain.AsWrittenRecreate`).
- Swapchain.RecreateKeeps: the invariant and the fault count hold over the corrected creation only (`Swapchain.AsWrittenRecreateDestroyFaults`).
- Buffer.TransferFields: "null on failure" holds for the corrected creation; as written a failed target creation leaves its destroyed handles.
- Buffer.StagedFields: the null target after a failed creation holds for the corrected creation; as written the destroyed handles stay.
- Buffer.CreateKeeps: the invariant after a failure holds because the corrected creation clears the handles it destroyed (`Buffer.AsWrittenCreate`).
- Buffer.StagedKeeps: as `Buffer.CreateKeeps`, for the staging and target creations.
- RendererSwapchain.SwapStepKeeps: composes the corrected `Swapchain.Recreate`.
- RendererSwapchain.AsWrittenRecreateSwapchain: only the framebuffer destruction is as written; the swapchain recreation inside it is the corrected one, and `Swapchain.AsWrittenRecreate` covers the other defect.
- RendererSwapchain.RecreateKeeps: composes the corrected framebuffer destruction and the corrected `Swapchain.Create`.
- RendererSwapchain.RecreateOutcome: "no swapchain after a swapchain failure" is the corrected creation's; as written a view failure leaves the destroyed swapchain's handle.
- RendererFrame.ResizeKeeps: composes the corrected recreation; as written a view failure during the resize leaves a handle the next destroy faults on (`Swapchain.AsWrittenRecreateDestroyFaults`).
- RendererFrame.DrawKeeps: its resize path composes the corrected recreation, as `RendererFrame.ResizeKeeps`.
- RendererInit.CreateUniform: composes the corrected `Buffer.Create`; as written a failed creation leaves destroyed handles in the slot (`RendererInit.AsWrittenCreateUniform`).
- RendererInit.CreateSlot: the rollback is fault-free only over the corrected creation; as written it destroys the failed slot's buffer again (`RendererInit.AsWrittenCreateSlot`).
- RendererInit.CreateUniforms: composes `RendererInit.CreateSlot`, so the same correction applies.
- RendererInit.CreateCameraUniforms: the fault-free all-or-nothing outcome holds over the corrected `Buffer.Create` only (`RendererInit.AsWrittenCreateSlot`).
- RendererInit.CreateFromCleared: as `RendererInit.CreateCameraUniforms`.
- RendererInit.UploadBuffer: "still empty on failure" is the corrected creation's; as written a failed target creation leaves destroyed handles in the mesh context.
- RendererInit.UploadIndexOrUndo: the slot's index context is empty again only over the corrected creation; as written it keeps the failed creation's destroyed handles.
- RendererInit.UploadSlot: the empty slot after a failure is the corrected creation's, as `RendererInit.UploadIndexOrUndo`.
- RendererInit.MeshSame: as written a failed upload leaves destroyed handles in the slot's fields, past the mesh count; the fields are unchanged only over the corrected creation.
- RendererInit.FreeSlotEmpty: as written an earlier failed upload can leave destroyed handles in the first free slot; the slot is empty over the corrected creation.
- RendererCreate.SwapchainCall: composes the corrected `Swapchain.Create` (`RendererCreate.AsWrittenSwapchainCall` shows the written path).
- RendererCreate.SwapchainStage: the invariant after a view failure needs the corrected creation.
- RendererCreate.CameraStage: all fields null with no fault holds over the corrected `Buffer.Create` only.
- RendererCreate.Stage: the fault count is kept only through the corrected swapchain and camera stages.
- RendererCreate.Create: the fault-free teardown holds over the corrected `Buffer.Create` and `Swapchain.Create`. As written, a camera buffer whose memory bind fails, or a first image view that fails, makes the failure path destroy an object twice (`RendererInit.AsWrittenCreateSlot`, `RendererCreate.AsWrittenSwapchainCall`).
- RendererCreate.Create: states that success needs every stage to succeed, not the converse that a script whose every answer succeeds yields success.
- RendererLegacy.ResizeForgetsFailure: "no swapchain left" holds over the corrected `Swapchain.Create` only.
- RendererLegacy.ResizeKeeps: no fault only over the corrected recreation.

## Findings

| source | as written | input that shows it | evidently intended | confidence | as-written member | corrected member |
|---|---|---|---|---|---|---|
| src/renderer/vk_buffer.cpp:41-60 | the failure paths destroy the buffer (and the memory) but leave their handles in the context, so a later `vk_buffer_destroy` destroys them again | a 64-byte buffer whose memory requirements fit no memory type: OUT_OF_DEVICE_MEMORY, then the caller's destroy destroys the buffer twice | clear each handle after destroying it | not executed | Buffer.AsWrittenNoMemoryTypeDoubleDestroys | Buffer.CreateDestroyBalanced |
| src/renderer/renderer.c:93-175 | from the command-pool failure on, the unwinding never destroys the render-finished semaphores but destroys their device; a failed framebuffer step leaks the framebuffers made; a failed vertex or index buffer returns without destroying anything | `vk_command_create` fails after the semaphores were made: they are left live when the device is destroyed | unwind every live step in reverse creation order | not executed | RendererLegacy.AsWrittenInitLeaks | RendererLegacy.Unwind |
| src/memory/arena.c:40-43 | the fit test `aligned_pos + size > arena->size` wraps in `size_t` | a 64-byte arena at position 16 asked for `SIZE_MAX` bytes with alignment 8 is granted offset 16 and left at position 15 | refuse a request that does not fit, as `arena.cpp` does | not executed | ArenaLegacy.LegacyAcceptsOversizedRequest | Arena.AllocAligned |
| src/renderer/vk_swapchain.c:184-189 | on an image-view failure the swapchain is destroyed but its handle stays in the context, so `vk_swapchain_destroy` destroys it again | the first image view fails to be created | clear the handle after destroying it | not executed | Swapchain.AsWrittenDestroyFaults | Swapchain.CreateDestroyBalanced |
| src/renderer/renderer_swapchain.c:38-47 | the framebuffer destruction sets the count to 0 but leaves the destroyed handles in the array; a recreation whose framebuffers fail part-way then counts the stale ones as its own | a recreation, over a renderer with two framebuffers, whose new swapchain has at least two images and whose first framebuffer fails: the next destruction destroys the old second framebuffer again | null each entry after destroying it | not executed | RendererSwapchain.AsWrittenStaleFramebufferDestroyedTwice | RendererSwapchain.RecreateThenDestroyClean |
| src/renderer/renderer_init.cpp:30-39 | after a failed `vk_buffer_create`, the camera loop calls `renderer_internal_destroy_camera_uniforms`; the failed creation already destroyed the slot's buffer but kept its handle, so the buffer is destroyed again | the first camera uniform buffer's memory allocation fails | clear the handles in `vk_buffer_create`, so the rollback finds them null | not executed | RendererInit.AsWrittenCreateSlot | RendererInit.CreateSlot |
| src/renderer/renderer_init.cpp:209-217 | when `vk_swapchain_create` fails on an image view, `renderer_create` goes to its failure path; the context still names the destroyed swapchain, so `renderer_destroy` (lines 293-295) destroys it again | the surface reports a swapchain with at least one image and the first image view fails | clear the handle in `vk_swapchain_create` | not executed | RendererCreate.AsWrittenSwapchainCall | RendererCreate.Create |
| src/renderer/vk_swapchain.c:212-235 | `vk_swapchain_recreate`, called on a resize, inherits the view-failure path: the new swapchain is destroyed, its handle kept, and the next destroy destroys it again | a resize whose new swapchain's first image view fails | clear the handle in `vk_swapchain_create` | not executed | Swapchain.AsWrittenRecreateDestroyFaults | Swapchain.RecreateKeeps |
| src/renderer/renderer.c:385-421 | `create_framebuffers` sets the count to the image count before the loop and returns on a failure, so `destroy_framebuffers` reads the uninitialised entries past it and destroys any that are not null | a recreation onto two or more images whose first framebuffer fails, over an arena block holding a stale handle | zero the pushed array, or set the count to the framebuffers made | not executed | RendererLegacy.AsWrittenUninitialisedFramebufferDestroyed | RendererLegacy.RecreateKeeps |
