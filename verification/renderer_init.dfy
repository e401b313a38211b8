/** Lifetime of the renderer of `renderer/renderer_init.cpp`: the camera
    uniform buffers with their descriptor pool, mesh upload into the mesh
    table, creation in stages with a single teardown path on failure, and
    teardown in reverse order of construction.

    The objects a renderer may hold are fixed by its counters (`Scoped`);
    under that invariant and the ownership invariant, teardown leaves no
    object live and raises no fault, whatever stage creation reached. */
module RendererInit {
  import opened Common
  import opened Ledger
  import Buffer
  import Device
  import Swapchain
  import Sync
  import Window
  import Mesh
  import opened RendererInternal
  import RendererSwapchain
  import RendererFrame

  // ---------------------------------------------------------------------
  // Which fields a renderer may hold

  /** The buffer contexts a renderer owns: one uniform buffer per frame
      slot, and a vertex and an index buffer per uploaded mesh. */
  predicate BufferInScope(r: Renderer, b: BufferSlot) {
    match b
    case UniformSlot(i) => i < MAX_FRAMES_IN_FLIGHT
    case MeshVertexSlot(i) => i < r.meshCount
    case MeshIndexSlot(i) => i < r.meshCount
    case _ => false
  }

  /** Field `f` may hold an object: the surface and the device only with
      an instance, the per-image objects only below the recorded counts,
      the per-slot objects only for the two frame slots, and never a retired
      swapchain outside a recreation. */
  predicate InScope(r: Renderer, f: Field) {
    match f
    case SurfaceF => Get(r.t, InstanceF) != 0
    case DeviceF => Get(r.t, InstanceF) != 0
    case RetiredSwapchainF => false
    case ImageViewF(i) => i < r.swapchain.imageCount
    case FramebufferF(i) => i < r.framebufferCount
    case RenderFinishedF(i) => i < r.swapchain.imageCount
    case ImageAvailableF(s) => s < MAX_FRAMES_IN_FLIGHT
    case FrameFinishedF(s) => s < MAX_FRAMES_IN_FLIGHT
    case InFlightF(s) => s < MAX_FRAMES_IN_FLIGHT
    case BufferF(b) => BufferInScope(r, b)
    case MemoryF(b) => BufferInScope(r, b)
    case _ => true
  }

  /** Every recorded object is in scope, and every recorded device child
      has its device recorded. */
  ghost predicate Scoped(r: Renderer) {
    forall f :: Get(r.t, f) != 0 ==> InScope(r, f) && (DeviceChild(KindOf(f)) ==> Get(r.t, DeviceF) != 0)
  }

  /** The invariant of a renderer from its allocation to its teardown. */
  ghost predicate Whole(r: Renderer) {
    && r.g.Valid() && Tracks(r.t, r.g) && Scoped(r)
    && r.swapchain.imageCount <= MAX_SWAPCHAIN_IMAGES && r.framebufferCount <= MAX_SWAPCHAIN_IMAGES
    && |r.imagesInFlight| == MAX_SWAPCHAIN_IMAGES && r.sync.Valid()
    && |r.uniformMapped| == MAX_FRAMES_IN_FLIGHT
  }

  /** The lifetime invariant includes the invariant the frame code relies
      on. */
  lemma WholeIsOwned(r: Renderer)
    requires Whole(r)
    ensures Owned(r)
  {
    forall i | r.swapchain.imageCount <= i < MAX_SWAPCHAIN_IMAGES
      ensures Get(r.t, ImageViewF(i)) == 0
    {
      assert !InScope(r, ImageViewF(i));
    }
    assert !InScope(r, RetiredSwapchainF);
    forall i: nat | r.framebufferCount <= i
      ensures Get(r.t, FramebufferF(i)) == 0
    {
      assert !InScope(r, FramebufferF(i));
    }
    forall i: nat | r.swapchain.imageCount <= i
      ensures Get(r.t, RenderFinishedF(i)) == 0
    {
      assert !InScope(r, RenderFinishedF(i));
    }
  }

  /** The renderer after the final `memset`: every handle null, every
      counter zero, no window. */
  function Zeroed(g: Gpu): (z: Renderer)
    ensures z.g == g && forall f :: Get(z.t, f) == 0
    ensures z.meshCount == 0 && z.framebufferCount == 0 && z.swapchain.imageCount == 0 && !z.hasWindow
  {
    Renderer(map[], g, Device.NO_FAMILIES, Swapchain.ZERO_STATE, Sync.ZERO_STATE, 0,
             Nulls(MAX_SWAPCHAIN_IMAGES), [false, false], 0, map[], false, false)
  }

  // ---------------------------------------------------------------------
  // Camera uniforms

  /** Releasing a device child keeps the ownership invariant and raises no
      fault. */
  lemma ReleaseChildKeeps(t: Table, g: Gpu, f: Field)
    requires g.Valid() && DeviceChild(KindOf(f))
    ensures Tracks(t, g) ==> Tracks(Release(t, g, f).0, Release(t, g, f).1) && Release(t, g, f).1.faults == g.faults
  {
    if Tracks(t, g) {
      ReleaseKeeps(t, g, f);
      DeviceChildHasNoChildren(t, KindOf(f));
    }
  }

  /** Destroying a buffer context keeps the ownership invariant and raises
      no fault. */
  lemma BufferDestroyKeeps(t: Table, g: Gpu, b: BufferSlot)
    requires g.Valid()
    ensures Tracks(t, g) ==> Tracks(Buffer.Destroy(t, g, b).0, Buffer.Destroy(t, g, b).1) && Buffer.Destroy(t, g, b).1.faults == g.faults
  {
    if Tracks(t, g) {
      Buffer.DestroyKeeps(t, g, b);
    }
  }

  /** The handle fields of one frame slot's uniform buffer. */
  predicate UniformField(f: Field, i: nat) {
    f == BufferF(UniformSlot(i)) || f == MemoryF(UniformSlot(i))
  }

  /** The handle fields the camera-uniform code clears and fills: both
      uniform buffer contexts and the descriptor pool. */
  predicate CameraField(f: Field) {
    UniformField(f, 0) || UniformField(f, 1) || f == DescriptorPoolF
  }

  const CAMERA_SET: set<Field> :=
    {BufferF(UniformSlot(0)), MemoryF(UniformSlot(0)), BufferF(UniformSlot(1)), MemoryF(UniformSlot(1)), DescriptorPoolF}

  /** `p` differs from `r` at most in its handles and uniform mappings. */
  predicate CameraFrame(p: Renderer, r: Renderer) {
    p == r.(t := p.t, g := p.g, uniformMapped := p.uniformMapped)
  }

  /** The uniform fields of the slots below `i`. */
  predicate UniformBelow(f: Field, i: nat) {
    (f.BufferF? || f.MemoryF?) && f.buffer.UniformSlot? && f.buffer.frame < i
  }

  /** Whether a uniform slot is still mapped after teardown: only a mapped
      slot whose memory is not recorded keeps its mapping. */
  function Unmapped(r: Renderer, i: nat): bool
    requires i < |r.uniformMapped|
  {
    r.uniformMapped[i] && Get(r.t, MemoryF(UniformSlot(i))) == 0
  }

  /** Slot `i`'s buffer field names an object that no longer exists. */
  predicate SlotDangles(r: Renderer, i: nat) {
    Get(r.t, BufferF(UniformSlot(i))) != 0 && Get(r.t, BufferF(UniformSlot(i))) !in r.g.live
  }

  /** Destruction only removes objects and never takes back a fault. */
  predicate Shrinks(p: Renderer, r: Renderer) {
    p.g.faults >= r.g.faults && p.g.live.Keys <= r.g.live.Keys
  }

  /** One slot of `renderer_internal_destroy_camera_uniforms`: a mapped
      buffer whose memory is recorded is unmapped and its mapping cleared,
      then the buffer is destroyed. A buffer field naming a destroyed
      object is destroyed again, which is a fault. */
  method DestroyUniform(r: Renderer, i: nat) returns (p: Renderer)
    requires r.g.Valid() && |r.uniformMapped| == MAX_FRAMES_IN_FLIGHT && i < MAX_FRAMES_IN_FLIGHT
    ensures p.g.Valid() && CameraFrame(p, r)
    ensures forall f :: Get(p.t, f) == (if UniformField(f, i) then 0 else Get(r.t, f))
    ensures p.uniformMapped == r.uniformMapped[i := Unmapped(r, i)]
    ensures Tracks(r.t, r.g) ==> Tracks(p.t, p.g) && p.g.faults == r.g.faults
    ensures Shrinks(p, r)
    ensures SlotDangles(r, i) ==> p.g.faults > r.g.faults
  {
    var mapped := r.uniformMapped;
    if mapped[i] && Get(r.t, MemoryF(UniformSlot(i))) != 0 {
      mapped := mapped[i := false];
    }
    BufferDestroyKeeps(r.t, r.g, UniformSlot(i));
    var d := Buffer.Destroy(r.t, r.g, UniformSlot(i));
    p := r.(t := d.0, g := d.1, uniformMapped := mapped);
  }

  /** The loop of `renderer_internal_destroy_camera_uniforms` over the
      frame slots. */
  method DestroyUniforms(r: Renderer) returns (p: Renderer)
    requires r.g.Valid() && |r.uniformMapped| == MAX_FRAMES_IN_FLIGHT
    ensures p.g.Valid() && |p.uniformMapped| == MAX_FRAMES_IN_FLIGHT && CameraFrame(p, r)
    ensures forall f :: Get(p.t, f) == (if UniformBelow(f, MAX_FRAMES_IN_FLIGHT) then 0 else Get(r.t, f))
    ensures p.uniformMapped == [Unmapped(r, 0), Unmapped(r, 1)]
    ensures Tracks(r.t, r.g) ==> Tracks(p.t, p.g) && p.g.faults == r.g.faults
    ensures Shrinks(p, r)
    ensures SlotDangles(r, 0) || SlotDangles(r, 1) ==> p.g.faults > r.g.faults
  {
    var q := DestroyUniform(r, 0);
    assert !UniformField(BufferF(UniformSlot(1)), 0) && !UniformField(MemoryF(UniformSlot(1)), 0);
    p := DestroyUniform(q, 1);
    BothSlotsCleared(r, q, p);
    BothSlotsFaults(r, q, p);
  }

  /** Clearing slot 0 and then slot 1 clears the uniform fields below 2. */
  lemma BothSlotsCleared(r: Renderer, q: Renderer, p: Renderer)
    requires forall f :: Get(q.t, f) == (if UniformField(f, 0) then 0 else Get(r.t, f))
    requires forall f :: Get(p.t, f) == (if UniformField(f, 1) then 0 else Get(q.t, f))
    ensures forall f :: Get(p.t, f) == (if UniformBelow(f, MAX_FRAMES_IN_FLIGHT) then 0 else Get(r.t, f))
  {
    forall f ensures Get(p.t, f) == (if UniformBelow(f, MAX_FRAMES_IN_FLIGHT) then 0 else Get(r.t, f)) {
      assert UniformBelow(f, MAX_FRAMES_IN_FLIGHT) <==> UniformField(f, 0) || UniformField(f, 1);
    }
  }

  /** A dangling buffer field in either slot survives until its own
      destruction, which faults. */
  lemma BothSlotsFaults(r: Renderer, q: Renderer, p: Renderer)
    requires Shrinks(q, r) && Shrinks(p, q)
    requires Get(q.t, BufferF(UniformSlot(1))) == Get(r.t, BufferF(UniformSlot(1)))
    requires SlotDangles(r, 0) ==> q.g.faults > r.g.faults
    requires SlotDangles(q, 1) ==> p.g.faults > q.g.faults
    ensures Shrinks(p, r)
    ensures SlotDangles(r, 0) || SlotDangles(r, 1) ==> p.g.faults > r.g.faults
  {
  }

  /** `renderer_internal_destroy_camera_uniforms`: every frame slot's
      uniform buffer, then the descriptor pool, which frees the descriptor
      sets with it. Every camera field is null afterwards and nothing else
      changes; the ownership invariant is kept and no fault is raised. A
      uniform buffer field naming a destroyed object is a fault. */
  method DestroyCameraUniforms(r: Renderer) returns (p: Renderer)
    requires r.g.Valid() && |r.uniformMapped| == MAX_FRAMES_IN_FLIGHT
    ensures p.g.Valid() && |p.uniformMapped| == MAX_FRAMES_IN_FLIGHT && CameraFrame(p, r)
    ensures CameraEmpty(p.t)
    ensures forall f :: !CameraField(f) ==> Get(p.t, f) == Get(r.t, f)
    ensures p.uniformMapped == [Unmapped(r, 0), Unmapped(r, 1)]
    ensures Tracks(r.t, r.g) ==> Tracks(p.t, p.g) && p.g.faults == r.g.faults
    ensures Shrinks(p, r)
    ensures SlotDangles(r, 0) || SlotDangles(r, 1) ==> p.g.faults > r.g.faults
  {
    var u := DestroyUniforms(r);
    assert UniformBelow(BufferF(UniformSlot(0)), 2) && UniformBelow(MemoryF(UniformSlot(0)), 2);
    assert UniformBelow(BufferF(UniformSlot(1)), 2) && UniformBelow(MemoryF(UniformSlot(1)), 2);
    ReleaseChildKeeps(u.t, u.g, DescriptorPoolF);
    var q := Release(u.t, u.g, DescriptorPoolF);
    p := u.(t := q.0, g := q.1);
    forall f | !CameraField(f)
      ensures Get(p.t, f) == Get(r.t, f)
    {
      assert !UniformBelow(f, 2) && f != DescriptorPoolF;
    }
  }

  /** What the driver answers while the camera uniforms are created:
      `sizeof(CameraUniformData)` (the structure is not part of this model),
      the buffer creations and memory mappings per slot, the descriptor
      pool and the descriptor-set allocation. */
  datatype CameraEnv = CameraEnv(uniformSize: nat, buffers: seq<Buffer.Driver>, mapResults: seq<VkResult>,
                                 poolRes: VkResult, setsRes: VkResult)

  /** The driver of the `i`-th buffer creation; creations past the end of
      the script succeed. */
  function DriverAt(ds: seq<Buffer.Driver>, i: nat): Buffer.Driver {
    if i < |ds| then ds[i] else Buffer.Driver(VkSuccess, 0, VkSuccess, VkSuccess)
  }

  /** The result of slot `i`'s creation and mapping: that of the first step
      that fails. */
  function SlotVerdict(env: CameraEnv, i: nat): VkResult {
    var b := Buffer.Verdict(DriverAt(env.buffers, i));
    if b != VkSuccess then b else ResultAt(env.mapResults, i)
  }

  /** Every step of the camera-uniform creation succeeds. */
  predicate CameraScriptOk(env: CameraEnv) {
    && SlotVerdict(env, 0) == VkSuccess && SlotVerdict(env, 1) == VkSuccess
    && env.poolRes == VkSuccess && env.setsRes == VkSuccess
  }

  /** One iteration of the creation loop: create slot `i`'s uniform buffer
      and map its memory. Only the slot's fields and mapping change. */
  method CreateUniform(r: Renderer, i: nat, env: CameraEnv) returns (p: Renderer, res: VkResult)
    requires r.g.Valid() && |r.uniformMapped| == MAX_FRAMES_IN_FLIGHT && i < MAX_FRAMES_IN_FLIGHT
    ensures p.g.Valid() && CameraFrame(p, r) && res == SlotVerdict(env, i)
    ensures forall f :: !UniformField(f, i) ==> Get(p.t, f) == Get(r.t, f)
    ensures Buffer.Verdict(DriverAt(env.buffers, i)) == VkSuccess <==> Get(p.t, BufferF(UniformSlot(i))) != 0
    ensures Buffer.Verdict(DriverAt(env.buffers, i)) == VkSuccess <==> Get(p.t, MemoryF(UniformSlot(i))) != 0
    ensures p.uniformMapped == if res == VkSuccess then r.uniformMapped[i := true] else r.uniformMapped
    ensures Tracks(r.t, r.g) && SlotEmpty(r.t, i) ==>
      Tracks(p.t, p.g) && (Get(r.t, DeviceF) != 0 ==> p.g.faults == r.g.faults)
  {
    var d := DriverAt(env.buffers, i);
    if Tracks(r.t, r.g) && SlotEmpty(r.t, i) {
      Buffer.CreateKeeps(r.t, r.g, UniformSlot(i), env.uniformSize, d);
    }
    var b := Buffer.Create(r.t, r.g, UniformSlot(i), env.uniformSize, d);
    p := r.(t := b.t, g := b.g);
    res := b.res;
    if res == VkSuccess {
      res := ResultAt(env.mapResults, i);
      if res == VkSuccess {
        p := p.(uniformMapped := p.uniformMapped[i := true]);
      }
    }
  }

  /** Slot `i`'s uniform buffer and its memory are both recorded. */
  predicate SlotHeld(t: Table, i: nat) {
    Get(t, BufferF(UniformSlot(i))) != 0 && Get(t, MemoryF(UniformSlot(i))) != 0
  }

  /** Slot `i`'s uniform buffer and its memory are both null. */
  predicate SlotEmpty(t: Table, i: nat) {
    Get(t, BufferF(UniformSlot(i))) == 0 && Get(t, MemoryF(UniformSlot(i))) == 0
  }

  /** Every camera field is null. */
  predicate CameraEmpty(t: Table) {
    SlotEmpty(t, 0) && SlotEmpty(t, 1) && Get(t, DescriptorPoolF) == 0
  }

  /** Every camera field holds an object. */
  predicate CameraHeld(t: Table) {
    SlotHeld(t, 0) && SlotHeld(t, 1) && Get(t, DescriptorPoolF) != 0
  }

  /** The camera fields are exactly the five fields the two predicates
      above name. */
  lemma CameraEmptyMeans(t: Table)
    ensures CameraEmpty(t) <==> forall f :: CameraField(f) ==> Get(t, f) == 0
    ensures CameraHeld(t) <==> forall f :: CameraField(f) ==> Get(t, f) != 0
  {
  }

  /** One iteration of the creation loop over a cleared slot, with the
      loop's failure exit: on success the slot is held and mapped and the
      other slot and the pool are as they were; on failure every camera
      object is torn down. */
  method CreateSlot(r: Renderer, i: nat, env: CameraEnv) returns (p: Renderer, res: VkResult)
    requires r.g.Valid() && |r.uniformMapped| == MAX_FRAMES_IN_FLIGHT && i < MAX_FRAMES_IN_FLIGHT
    requires SlotEmpty(r.t, i) && !r.uniformMapped[i]
    ensures p.g.Valid() && |p.uniformMapped| == MAX_FRAMES_IN_FLIGHT && CameraFrame(p, r)
    ensures forall f :: !CameraField(f) ==> Get(p.t, f) == Get(r.t, f)
    ensures res == SlotVerdict(env, i)
    ensures res == VkSuccess ==>
      && SlotHeld(p.t, i) && p.uniformMapped == r.uniformMapped[i := true]
      && (i == 0 ==> SlotHeld(p.t, 1) == SlotHeld(r.t, 1) && SlotEmpty(p.t, 1) == SlotEmpty(r.t, 1))
      && (i == 1 ==> SlotHeld(p.t, 0) == SlotHeld(r.t, 0) && SlotEmpty(p.t, 0) == SlotEmpty(r.t, 0))
      && Get(p.t, DescriptorPoolF) == Get(r.t, DescriptorPoolF)
    ensures res != VkSuccess ==> CameraEmpty(p.t)
    ensures Tracks(r.t, r.g) ==> Tracks(p.t, p.g) && (Get(r.t, DeviceF) != 0 ==> p.g.faults == r.g.faults)
  {
    ghost var pre := Tracks(r.t, r.g);
    ghost var q;
    p, res := CreateUniform(r, i, env);
    q := p;
    assert pre ==> Tracks(p.t, p.g);
    if res != VkSuccess {
      p := DestroyCameraUniforms(p);
    }
    forall f | !CameraField(f)
      ensures Get(p.t, f) == Get(r.t, f)
    {
      assert !UniformField(f, i) by { assert i == 0 || i == 1; }
      assert Get(q.t, f) == Get(r.t, f);
    }
  }

  /** Slot `i`'s creation and mapping over the as-written
      `vk_buffer_create`: a creation that fails after the buffer was made
      leaves the destroyed buffer's handle in the slot. */
  method AsWrittenCreateUniform(r: Renderer, i: nat, env: CameraEnv) returns (p: Renderer, res: VkResult)
    requires r.g.Valid() && |r.uniformMapped| == MAX_FRAMES_IN_FLIGHT && i < MAX_FRAMES_IN_FLIGHT
    ensures p.g.Valid() && |p.uniformMapped| == MAX_FRAMES_IN_FLIGHT && CameraFrame(p, r)
    ensures res == SlotVerdict(env, i) && p.g.faults >= r.g.faults
    ensures DriverAt(env.buffers, i).createRes == VkSuccess && Buffer.Verdict(DriverAt(env.buffers, i)) != VkSuccess ==>
      SlotDangles(p, i)
  {
    var d := DriverAt(env.buffers, i);
    var b := Buffer.AsWrittenCreate(r.t, r.g, UniformSlot(i), env.uniformSize, d);
    if b.res != VkSuccess {
      Buffer.AsWrittenFailureDangles(r.t, r.g, UniformSlot(i), env.uniformSize, d);
    }
    p := r.(t := b.t, g := b.g);
    res := b.res;
    if res == VkSuccess {
      res := ResultAt(env.mapResults, i);
      if res == VkSuccess {
        p := p.(uniformMapped := p.uniformMapped[i := true]);
      }
    }
  }

  /** One iteration of the creation loop as written, with its failure
      exit: when the buffer was made but its creation failed later, the
      teardown destroys the slot's destroyed objects a second time. */
  method AsWrittenCreateSlot(r: Renderer, i: nat, env: CameraEnv) returns (p: Renderer, res: VkResult)
    requires r.g.Valid() && |r.uniformMapped| == MAX_FRAMES_IN_FLIGHT && i < MAX_FRAMES_IN_FLIGHT
    requires SlotEmpty(r.t, i) && !r.uniformMapped[i]
    ensures p.g.Valid() && |p.uniformMapped| == MAX_FRAMES_IN_FLIGHT && CameraFrame(p, r)
    ensures res == SlotVerdict(env, i)
    ensures res != VkSuccess ==> CameraEmpty(p.t)
    ensures p.g.faults >= r.g.faults
    ensures DriverAt(env.buffers, i).createRes == VkSuccess && Buffer.Verdict(DriverAt(env.buffers, i)) != VkSuccess ==>
      p.g.faults > r.g.faults
  {
    p, res := AsWrittenCreateUniform(r, i, env);
    if res != VkSuccess {
      assert SlotDangles(p, i) ==> SlotDangles(p, 0) || SlotDangles(p, 1);
      p := DestroyCameraUniforms(p);
    }
  }

  /** The loop of `renderer_internal_create_camera_uniforms` over cleared
      contexts, unrolled over its two frame slots: every slot's buffer is
      created and mapped, and the first failure tears down every camera
      object and is returned. */
  method CreateUniforms(r: Renderer, env: CameraEnv) returns (p: Renderer, res: VkResult)
    requires r.g.Valid() && r.uniformMapped == [false, false]
    requires CameraEmpty(r.t)
    ensures p.g.Valid() && |p.uniformMapped| == MAX_FRAMES_IN_FLIGHT && CameraFrame(p, r)
    ensures forall f :: !CameraField(f) ==> Get(p.t, f) == Get(r.t, f)
    ensures Get(p.t, DescriptorPoolF) == 0
    ensures res == VkSuccess <==> SlotVerdict(env, 0) == VkSuccess && SlotVerdict(env, 1) == VkSuccess
    ensures res == VkSuccess ==> p.uniformMapped == [true, true] && SlotHeld(p.t, 0) && SlotHeld(p.t, 1)
    ensures res != VkSuccess ==> CameraEmpty(p.t)
    ensures Tracks(r.t, r.g) ==> Tracks(p.t, p.g) && (Get(r.t, DeviceF) != 0 ==> p.g.faults == r.g.faults)
  {
    ghost var pre := Tracks(r.t, r.g);
    p, res := CreateSlot(r, 0, env);
    if res == VkSuccess {
      var q := p;
      assert Get(q.t, DeviceF) == Get(r.t, DeviceF) by { assert !CameraField(DeviceF); }
      assert pre ==> Tracks(q.t, q.g);
      p, res := CreateSlot(q, 1, env);
    }
  }

  lemma CameraSetFacts()
    ensures forall f :: f in CAMERA_SET <==> CameraField(f)
  {
  }

  /** Two states that differ only in camera fields, both of them empty,
      have the same live objects. */
  lemma CameraRollback(p: Renderer, r: Renderer)
    requires p.g.Valid() && r.g.Valid() && Tracks(p.t, p.g) && Tracks(r.t, r.g)
    requires CameraEmpty(p.t) && CameraEmpty(r.t)
    requires forall f :: !CameraField(f) ==> Get(p.t, f) == Get(r.t, f)
    ensures p.g.live == r.g.live
  {
    CameraEmptyMeans(p.t);
    CameraEmptyMeans(r.t);
    assert Same(p.t, r.t);
    SameTableSameLive(p.t, p.g, r.t, r.g);
  }

  /** The descriptor pool and the descriptor-set allocation; a failure of
      either tears down every camera object. */
  method CreatePool(r: Renderer, env: CameraEnv) returns (p: Renderer, res: VkResult)
    requires r.g.Valid() && |r.uniformMapped| == MAX_FRAMES_IN_FLIGHT
    ensures p.g.Valid() && |p.uniformMapped| == MAX_FRAMES_IN_FLIGHT && CameraFrame(p, r)
    ensures res == VkSuccess <==> env.poolRes == VkSuccess && env.setsRes == VkSuccess
    ensures forall f :: !CameraField(f) ==> Get(p.t, f) == Get(r.t, f)
    ensures res == VkSuccess ==>
      && Get(p.t, DescriptorPoolF) != 0 && p.uniformMapped == r.uniformMapped
      && SlotHeld(p.t, 0) == SlotHeld(r.t, 0) && SlotHeld(p.t, 1) == SlotHeld(r.t, 1)
    ensures res != VkSuccess ==> CameraEmpty(p.t)
    ensures Tracks(r.t, r.g) && Get(r.t, DescriptorPoolF) == 0 ==>
      Tracks(p.t, p.g) && (Get(r.t, DeviceF) != 0 ==> p.g.faults == r.g.faults)
  {
    p := MakePool(r, env.poolRes);
    ghost var pre := Tracks(r.t, r.g) && Get(r.t, DescriptorPoolF) == 0;
    assert pre ==> Tracks(p.t, p.g);
    assert SlotHeld(p.t, 0) == SlotHeld(r.t, 0) && SlotHeld(p.t, 1) == SlotHeld(r.t, 1);
    res := env.poolRes;
    if res == VkSuccess {
      res := env.setsRes;
    }
    if res != VkSuccess {
      p := DestroyCameraUniforms(p);
    }
  }

  /** `vkCreateDescriptorPool` into the renderer: the pool is recorded
      exactly when the driver succeeds, and nothing else changes. */
  method MakePool(r: Renderer, poolRes: VkResult) returns (p: Renderer)
    requires r.g.Valid()
    ensures p.g.Valid() && p == r.(t := p.t, g := p.g)
    ensures forall f :: f != DescriptorPoolF ==> Get(p.t, f) == Get(r.t, f)
    ensures Get(p.t, DescriptorPoolF) != 0 <==> poolRes == VkSuccess
    ensures Tracks(r.t, r.g) && Get(r.t, DescriptorPoolF) == 0 ==>
      Tracks(p.t, p.g) && (Get(r.t, DeviceF) != 0 ==> p.g.faults == r.g.faults)
  {
    var made := Make(r.t, r.g, DescriptorPoolF, poolRes);
    if Tracks(r.t, r.g) && Get(r.t, DescriptorPoolF) == 0 {
      MakeKeeps(r.t, r.g, DescriptorPoolF, poolRes);
      DeviceChildParents(r.t, DescriptorPoolK);
    }
    p := r.(t := made.0, g := made.1);
  }

  /** `renderer_internal_create_camera_uniforms`: clears the contexts and
      mappings, creates and maps one uniform buffer per frame slot, then
      creates the descriptor pool and allocates the descriptor sets from it
      (the sets are freed with the pool, so they hold nothing of their
      own). The first failure tears down every camera object and is
      returned. On success every camera object is recorded and both slots
      are mapped; on failure the live objects are as they were; nothing but
      camera fields and mappings changes. */
  method CreateCameraUniforms(r: Renderer, env: CameraEnv) returns (p: Renderer, res: VkResult)
    requires r.g.Valid() && |r.uniformMapped| == MAX_FRAMES_IN_FLIGHT
    ensures p.g.Valid() && |p.uniformMapped| == MAX_FRAMES_IN_FLIGHT && CameraFrame(p, r)
    ensures res == VkSuccess <==> CameraScriptOk(env)
    ensures forall f :: !CameraField(f) ==> Get(p.t, f) == Get(r.t, f)
    ensures res == VkSuccess ==> p.uniformMapped == [true, true] && CameraHeld(p.t)
    ensures res != VkSuccess ==> CameraEmpty(p.t)
    ensures Tracks(r.t, r.g) && CameraEmpty(r.t) ==>
      && Tracks(p.t, p.g)
      && (Get(r.t, DeviceF) != 0 ==> p.g.faults == r.g.faults)
      && (res != VkSuccess ==> p.g.live == r.g.live)
  {
    ClearCamera(r.t, r.g);
    var q := r.(t := Zero(r.t, CAMERA_SET), uniformMapped := [false, false]);
    p, res := CreateFromCleared(q, env);
    if Tracks(r.t, r.g) && CameraEmpty(r.t) && res != VkSuccess {
      CameraRollback(p, r);
    }
  }

  /** Clearing the camera fields empties them, touches nothing else and,
      when they were already empty, keeps the ownership invariant. */
  lemma ClearCamera(t: Table, g: Gpu)
    ensures CameraEmpty(Zero(t, CAMERA_SET))
    ensures forall f :: !CameraField(f) ==> Get(Zero(t, CAMERA_SET), f) == Get(t, f)
    ensures Tracks(t, g) && CameraEmpty(t) ==> Tracks(Zero(t, CAMERA_SET), g)
  {
    CameraSetFacts();
    if Tracks(t, g) && CameraEmpty(t) {
      ZeroOfNulls(t, g, CAMERA_SET);
    }
  }

  /** The creation steps of `renderer_internal_create_camera_uniforms`
      after the contexts and mappings are cleared. */
  method CreateFromCleared(r: Renderer, env: CameraEnv) returns (p: Renderer, res: VkResult)
    requires r.g.Valid() && r.uniformMapped == [false, false] && CameraEmpty(r.t)
    ensures p.g.Valid() && |p.uniformMapped| == MAX_FRAMES_IN_FLIGHT && CameraFrame(p, r)
    ensures res == VkSuccess <==> CameraScriptOk(env)
    ensures forall f :: !CameraField(f) ==> Get(p.t, f) == Get(r.t, f)
    ensures res == VkSuccess ==> p.uniformMapped == [true, true] && CameraHeld(p.t)
    ensures res != VkSuccess ==> CameraEmpty(p.t)
    ensures Tracks(r.t, r.g) ==>
      Tracks(p.t, p.g) && (Get(r.t, DeviceF) != 0 ==> p.g.faults == r.g.faults)
  {
    ghost var pre := Tracks(r.t, r.g);
    var q;
    q, res := CreateUniforms(r, env);
    if res != VkSuccess {
      return q, res;
    }
    assert pre ==> Tracks(q.t, q.g);
    assert Get(q.t, DeviceF) == Get(r.t, DeviceF) by { assert !CameraField(DeviceF); }
    p, res := CreatePool(q, env);
    assert pre ==> Tracks(p.t, p.g);
    CameraFrameChains(p, q, r);
  }

  lemma CameraFrameChains(p: Renderer, q: Renderer, r: Renderer)
    requires CameraFrame(p, q) && CameraFrame(q, r)
    ensures CameraFrame(p, r)
  {
  }


  // ---------------------------------------------------------------------
  // Growing the scope

  /** Every counter that bounds a scope is at least as large in `p`, and
      the instance and the device stay recorded. */
  predicate ScopeGrows(r: Renderer, p: Renderer) {
    && p.swapchain.imageCount >= r.swapchain.imageCount && p.framebufferCount >= r.framebufferCount
    && p.meshCount >= r.meshCount
    && (Get(r.t, InstanceF) != 0 ==> Get(p.t, InstanceF) != 0)
    && (Get(r.t, DeviceF) != 0 ==> Get(p.t, DeviceF) != 0)
  }

  /** A step that only widens the scope and records new objects within
      the new scope, each device child with the device recorded, keeps
      every recorded object in scope. */
  lemma Rescope(r: Renderer, p: Renderer)
    requires Scoped(r) && ScopeGrows(r, p)
    requires forall f :: Get(p.t, f) != 0 && Get(p.t, f) != Get(r.t, f) ==>
      InScope(p, f) && (DeviceChild(KindOf(f)) ==> Get(p.t, DeviceF) != 0)
    ensures Scoped(p)
  {
    forall f | Get(p.t, f) != 0
      ensures InScope(p, f) && (DeviceChild(KindOf(f)) ==> Get(p.t, DeviceF) != 0)
    {
      if Get(p.t, f) == Get(r.t, f) {
        assert InScope(r, f);
      }
    }
  }

  // ---------------------------------------------------------------------
  // Mesh upload

  /** The handle fields of a buffer context. */
  predicate BufferEmpty(t: Table, b: BufferSlot) {
    Get(t, BufferF(b)) == 0 && Get(t, MemoryF(b)) == 0
  }

  predicate BufferHeld(t: Table, b: BufferSlot) {
    Get(t, BufferF(b)) != 0 && Get(t, MemoryF(b)) != 0
  }

  /** `p` differs from `r` in its handles at most. */
  predicate TableOnly(p: Renderer, r: Renderer) {
    CameraFrame(p, r) && p.uniformMapped == r.uniformMapped
  }

  /** One staged upload into a mesh buffer context. On success the target
      is recorded; on failure an empty target stays empty; the staging
      context ends empty; no other field changes. A failed upload leaves
      the live objects as they were, a successful one adds the target's
      buffer and memory. */
  method UploadBuffer(r: Renderer, target: BufferSlot, usage: nat, data: seq<bv8>, size: nat, u: Buffer.Upload)
    returns (p: Renderer, res: VkResult)
    requires r.g.Valid() && (target.MeshVertexSlot? || target.MeshIndexSlot?) && size <= |data|
    ensures p.g.Valid() && TableOnly(p, r) && res == Buffer.UploadVerdict(u)
    ensures res == VkSuccess ==> BufferHeld(p.t, target)
    ensures res != VkSuccess && BufferEmpty(r.t, target) ==> BufferEmpty(p.t, target)
    ensures BufferEmpty(p.t, StagingSlot)
    ensures forall f :: Buffer.Outside(f, target) ==> Get(p.t, f) == Get(r.t, f)
    ensures Tracks(r.t, r.g) && BufferEmpty(r.t, target) && BufferEmpty(r.t, StagingSlot) ==>
      && Tracks(p.t, p.g)
      && (Get(r.t, DeviceF) != 0 ==> p.g.faults == r.g.faults)
      && (res != VkSuccess ==> p.g.live.Keys == r.g.live.Keys)
  {
    var st := Buffer.CreateStaged(r.t, r.g, target, usage, data, size, u);
    Buffer.StagedFields(r.t, r.g, target, usage, data, size, u);
    Buffer.StagedLive(r.t, r.g, target, usage, data, size, u);
    if Tracks(r.t, r.g) && BufferEmpty(r.t, target) && BufferEmpty(r.t, StagingSlot) {
      Buffer.StagedKeeps(r.t, r.g, target, usage, data, size, u);
      if Get(r.t, DeviceF) != 0 {
        Buffer.RecordedDeviceLive(r.t, r.g);
      }
    }
    p := r.(t := st.t, g := st.g);
    res := st.res;
  }

  /** Field `f` belongs to none of the buffer contexts a mesh upload into
      slot `i` writes. */
  predicate OutsideMesh(f: Field, i: nat) {
    Buffer.Outside(f, MeshVertexSlot(i)) && Buffer.Outside(f, MeshIndexSlot(i))
  }

  /** The index upload of a mesh; when it fails the slot's vertex buffer
      is destroyed, so the slot ends empty. */
  method UploadIndexOrUndo(r: Renderer, slot: nat, data: seq<bv8>, size: nat, u: Buffer.Upload)
    returns (p: Renderer, res: VkResult)
    requires r.g.Valid() && size <= |data|
    ensures p.g.Valid() && TableOnly(p, r) && res == Buffer.UploadVerdict(u)
    ensures res == VkSuccess ==> BufferHeld(p.t, MeshIndexSlot(slot)) && Get(p.t, BufferF(MeshVertexSlot(slot))) == Get(r.t, BufferF(MeshVertexSlot(slot))) && Get(p.t, MemoryF(MeshVertexSlot(slot))) == Get(r.t, MemoryF(MeshVertexSlot(slot)))
    ensures res != VkSuccess && BufferEmpty(r.t, MeshIndexSlot(slot)) ==>
      BufferEmpty(p.t, MeshIndexSlot(slot)) && BufferEmpty(p.t, MeshVertexSlot(slot))
    ensures BufferEmpty(p.t, StagingSlot)
    ensures forall f :: OutsideMesh(f, slot) ==> Get(p.t, f) == Get(r.t, f)
    ensures Tracks(r.t, r.g) && BufferEmpty(r.t, MeshIndexSlot(slot)) && BufferEmpty(r.t, StagingSlot) ==>
      Tracks(p.t, p.g) && (Get(r.t, DeviceF) != 0 ==> p.g.faults == r.g.faults)
  {
    p, res := UploadBuffer(r, MeshIndexSlot(slot), Buffer.USAGE_INDEX_BUFFER, data, size, u);
    if res != VkSuccess {
      BufferDestroyKeeps(p.t, p.g, MeshVertexSlot(slot));
      var d := Buffer.Destroy(p.t, p.g, MeshVertexSlot(slot));
      p := p.(t := d.0, g := d.1);
    }
  }

  /** Both uploads of a mesh into slot `slot`: on success both of the
      slot's buffer contexts are recorded, on failure both are empty; the
      staging context ends empty and no other field changes. */
  method UploadSlot(r: Renderer, slot: nat, m: Mesh.Mesh, vertexBytes: seq<bv8>, indexBytes: seq<bv8>, env: MeshEnv)
    returns (p: Renderer, res: VkResult)
    requires r.g.Valid()
    requires m.vertexCount * Mesh.VERTEX_SIZE <= |vertexBytes| && m.indexCount * Mesh.INDEX_SIZE <= |indexBytes|
    ensures p.g.Valid() && TableOnly(p, r)
    ensures res == VkSuccess <==> Buffer.UploadVerdict(env.vertex) == VkSuccess && Buffer.UploadVerdict(env.index) == VkSuccess
    ensures res == VkSuccess ==> BufferHeld(p.t, MeshVertexSlot(slot)) && BufferHeld(p.t, MeshIndexSlot(slot))
    ensures res != VkSuccess && BufferEmpty(r.t, MeshVertexSlot(slot)) && BufferEmpty(r.t, MeshIndexSlot(slot)) ==>
      BufferEmpty(p.t, MeshVertexSlot(slot)) && BufferEmpty(p.t, MeshIndexSlot(slot))
    ensures BufferEmpty(p.t, StagingSlot)
    ensures forall f :: OutsideMesh(f, slot) ==> Get(p.t, f) == Get(r.t, f)
    ensures (Tracks(r.t, r.g) && BufferEmpty(r.t, MeshVertexSlot(slot)) && BufferEmpty(r.t, MeshIndexSlot(slot))
             && BufferEmpty(r.t, StagingSlot)) ==>
      Tracks(p.t, p.g) && (Get(r.t, DeviceF) != 0 ==> p.g.faults == r.g.faults)
  {
    var v;
    v, res := UploadBuffer(r, MeshVertexSlot(slot), Buffer.USAGE_VERTEX_BUFFER, vertexBytes,
                           m.vertexCount * Mesh.VERTEX_SIZE, env.vertex);
    ghost var pre := Tracks(r.t, r.g) && BufferEmpty(r.t, MeshVertexSlot(slot)) && BufferEmpty(r.t, MeshIndexSlot(slot))
             && BufferEmpty(r.t, StagingSlot);
    if res == VkSuccess {
      assert Get(v.t, DeviceF) == Get(r.t, DeviceF);
      assert pre ==> Tracks(v.t, v.g);
      assert BufferEmpty(r.t, MeshIndexSlot(slot)) ==> BufferEmpty(v.t, MeshIndexSlot(slot));
      p, res := UploadIndexOrUndo(v, slot, indexBytes, m.indexCount * Mesh.INDEX_SIZE, env.index);
      assert pre ==> Tracks(p.t, p.g);
    } else {
      p := v;
    }
  }

  /** The invariant of a renderer survives a step that keeps the ownership
      invariant, keeps the fixed sizes and only widens the scope. */
  lemma WholeStep(r: Renderer, p: Renderer)
    requires Whole(r) && p.g.Valid() && Tracks(p.t, p.g) && ScopeGrows(r, p)
    requires p.swapchain.imageCount <= MAX_SWAPCHAIN_IMAGES && p.framebufferCount <= MAX_SWAPCHAIN_IMAGES
    requires |p.imagesInFlight| == MAX_SWAPCHAIN_IMAGES && p.sync.Valid() && |p.uniformMapped| == MAX_FRAMES_IN_FLIGHT
    requires forall f :: Get(p.t, f) != 0 && Get(p.t, f) != Get(r.t, f) ==>
      InScope(p, f) && (DeviceChild(KindOf(f)) ==> Get(p.t, DeviceF) != 0)
    ensures Whole(p)
  {
    Rescope(r, p);
  }

  /** The fields a mesh upload into slot `slot` may record are that slot's
      buffer contexts. */
  lemma MeshChanges(r: Renderer, p: Renderer, slot: nat)
    requires Get(r.t, DeviceF) != 0 && slot < p.meshCount
    requires forall f :: OutsideMesh(f, slot) ==> Get(p.t, f) == Get(r.t, f)
    requires BufferEmpty(p.t, StagingSlot)
    ensures forall f :: Get(p.t, f) != 0 && Get(p.t, f) != Get(r.t, f) ==>
      InScope(p, f) && (DeviceChild(KindOf(f)) ==> Get(p.t, DeviceF) != 0)
  {
    assert OutsideMesh(DeviceF, slot);
    forall f | Get(p.t, f) != 0 && Get(p.t, f) != Get(r.t, f)
      ensures InScope(p, f)
    {
      assert !OutsideMesh(f, slot);
    }
  }

  /** A mesh upload into the first free slot keeps the invariant of the
      renderer: the slot's objects are in scope once the count covers
      them. */
  lemma MeshWhole(r: Renderer, p: Renderer)
    requires Whole(r) && Get(r.t, DeviceF) != 0 && p.g.Valid() && Tracks(p.t, p.g)
    requires p.swapchain == r.swapchain && p.framebufferCount == r.framebufferCount
    requires p.imagesInFlight == r.imagesInFlight && p.sync == r.sync && p.uniformMapped == r.uniformMapped
    requires p.meshCount == r.meshCount + 1
    requires forall f :: OutsideMesh(f, r.meshCount) ==> Get(p.t, f) == Get(r.t, f)
    requires BufferEmpty(p.t, StagingSlot)
    ensures Whole(p)
  {
    var slot := r.meshCount;
    MeshChanges(r, p, slot);
    MeshKeepsRoots(r.t, p.t, slot);
    WholeStep(r, p);
  }

  /** A mesh upload leaves the instance and the device as they were. */
  lemma MeshKeepsRoots(t: Table, t1: Table, slot: nat)
    requires forall f :: OutsideMesh(f, slot) ==> Get(t1, f) == Get(t, f)
    ensures Get(t1, InstanceF) == Get(t, InstanceF) && Get(t1, DeviceF) == Get(t, DeviceF)
  {
    assert OutsideMesh(InstanceF, slot) && OutsideMesh(DeviceF, slot);
  }

  /** A failed mesh upload, which leaves every field as it was, keeps the
      invariant of the renderer. */
  lemma SameWhole(r: Renderer, p: Renderer)
    requires Whole(r) && p.g.Valid() && Tracks(p.t, p.g) && Same(p.t, r.t)
    requires p.swapchain == r.swapchain && p.framebufferCount == r.framebufferCount && p.meshCount == r.meshCount
    requires p.imagesInFlight == r.imagesInFlight && p.sync == r.sync && p.uniformMapped == r.uniformMapped
    ensures Whole(p)
  {
    forall f | Get(p.t, f) != 0
      ensures InScope(p, f) && (DeviceChild(KindOf(f)) ==> Get(p.t, DeviceF) != 0)
    {
      assert Get(r.t, f) == Get(p.t, f) && Get(r.t, DeviceF) == Get(p.t, DeviceF);
      assert InScope(r, f);
    }
  }

  /** The first free mesh slot and the staging context hold nothing. */
  lemma FreeSlotEmpty(r: Renderer)
    requires Scoped(r)
    ensures BufferEmpty(r.t, MeshVertexSlot(r.meshCount)) && BufferEmpty(r.t, MeshIndexSlot(r.meshCount))
    ensures BufferEmpty(r.t, StagingSlot)
  {
    var slot := r.meshCount;
    assert !InScope(r, BufferF(MeshVertexSlot(slot))) && !InScope(r, MemoryF(MeshVertexSlot(slot)));
    assert !InScope(r, BufferF(MeshIndexSlot(slot))) && !InScope(r, MemoryF(MeshIndexSlot(slot)));
    assert !InScope(r, BufferF(StagingSlot)) && !InScope(r, MemoryF(StagingSlot));
  }

  /** A failed mesh upload leaves every field as it was. */
  lemma MeshSame(r: Renderer, p: Renderer)
    requires Whole(r)
    requires forall f :: OutsideMesh(f, r.meshCount) ==> Get(p.t, f) == Get(r.t, f)
    requires BufferEmpty(p.t, StagingSlot)
    requires BufferEmpty(p.t, MeshVertexSlot(r.meshCount)) && BufferEmpty(p.t, MeshIndexSlot(r.meshCount))
    ensures Same(p.t, r.t)
  {
    FreeSlotEmpty(r);
  }

  /** What the driver answers during the two uploads of a mesh. */
  datatype MeshEnv = MeshEnv(vertex: Buffer.Upload, index: Buffer.Upload)

  /** `renderer_upload_mesh`: a full mesh table (`MAX_MESHES`, here
      `maxMeshes`) is refused with nothing changed; otherwise the next slot
      receives a vertex buffer and then an index buffer, each uploaded
      through a staging buffer. A vertex failure leaves the slot empty, an
      index failure destroys the slot's vertex buffer; both report a graphics
      error and leave the mesh count as it was. On success the slot's index
      count is recorded, the mesh count grows by one and the handle is the
      slot. The bytes of the vertex and index arrays are passed as given. */
  method UploadMesh(r: Renderer, maxMeshes: nat, m: Mesh.Mesh, vertexBytes: seq<bv8>, indexBytes: seq<bv8>, env: MeshEnv)
    returns (p: Renderer, status: Status, handle: nat)
    requires r.g.Valid()
    requires m.vertexCount * Mesh.VERTEX_SIZE <= |vertexBytes| && m.indexCount * Mesh.INDEX_SIZE <= |indexBytes|
    ensures p.g.Valid()
    ensures r.meshCount >= maxMeshes ==> status == ErrorGeneric && p == r
    ensures status == Ok <==>
      r.meshCount < maxMeshes && Buffer.UploadVerdict(env.vertex) == VkSuccess && Buffer.UploadVerdict(env.index) == VkSuccess
    ensures status != Ok && r.meshCount < maxMeshes ==> status == ErrorVulkan
    ensures status == Ok ==>
      && handle == r.meshCount && p.meshCount == r.meshCount + 1
      && p.indexCounts == r.indexCounts[handle := m.indexCount]
      && BufferHeld(p.t, MeshVertexSlot(handle)) && BufferHeld(p.t, MeshIndexSlot(handle))
    ensures status != Ok ==> p.meshCount == r.meshCount && p.indexCounts == r.indexCounts
    ensures Whole(r) && Get(r.t, DeviceF) != 0 ==>
      && Whole(p) && p.g.faults == r.g.faults
      && (status != Ok ==> p.g.live == r.g.live)
  {
    p, handle := r, 0;
    if r.meshCount >= maxMeshes {
      status := ErrorGeneric;
      return;
    }
    var slot := r.meshCount;
    var whole := Whole(r) && Get(r.t, DeviceF) != 0;
    if whole {
      FreeSlotEmpty(r);
    }
    var res;
    p, res := UploadSlot(r, slot, m, vertexBytes, indexBytes, env);
    if res != VkSuccess {
      status := ErrorVulkan;
      if whole {
        MeshSame(r, p);
        SameWhole(r, p);
        SameTableSameLive(p.t, p.g, r.t, r.g);
      }
      return;
    }
    p := p.(meshCount := slot + 1, indexCounts := p.indexCounts[slot := m.indexCount]);
    status, handle := Ok, slot;
    if whole {
      MeshWhole(r, p);
    }
  }
}
