/** `renderer_create` of `renderer/renderer_init.cpp`: allocates and zeroes
    the renderer, then creates its objects in eleven stages: the instance,
    the surface, the device, the swapchain with its views, the
    render-finished semaphores, the frame-slot objects, the command pool,
    the render pass, the pipeline, the camera uniforms and the
    framebuffers. The first failing stage sends the partly built renderer
    to `renderer_destroy` and its error is returned.

    Between stages the renderer holds exactly the objects in scope of the
    stages done (`Reached`); inside a failing stage it still keeps every
    object in scope, so teardown leaves nothing live and raises no fault. */
module RendererCreate {
  import opened Common
  import opened Ledger
  import Device
  import Swapchain
  import Sync
  import opened RendererInternal
  import RendererSwapchain
  import opened RendererInit
  import RendererLifetime

  // ---------------------------------------------------------------------
  // The stages of creation

  /** The stage of `renderer_create` that creates the object of field `f`,
      from 1 (the instance) to 11 (the framebuffers); 12 for the fields it
      never fills: the meshes, the staging and quad buffers, uniform slots
      past the frame slots, and the retired swapchain. */
  function Rank(f: Field): (k: nat)
    ensures 1 <= k <= 12
  {
    match f
    case InstanceF => 1
    case SurfaceF => 2
    case DeviceF => 3
    case SwapchainF => 4
    case ImageViewF(_) => 4
    case RenderFinishedF(_) => 5
    case ImageAvailableF(_) => 6
    case FrameFinishedF(_) => 6
    case InFlightF(_) => 6
    case CommandPoolF => 7
    case RenderPassF => 8
    case PipelineF => 9
    case BufferF(b) => if b.UniformSlot? && b.frame < MAX_FRAMES_IN_FLIGHT then 10 else 12
    case MemoryF(b) => if b.UniformSlot? && b.frame < MAX_FRAMES_IN_FLIGHT then 10 else 12
    case DescriptorPoolF => 10
    case FramebufferF(_) => 11
    case RetiredSwapchainF => 12
  }

  /** The fields the camera-uniform code fills are those of stage 10. */
  lemma CameraRank(f: Field)
    ensures CameraField(f) <==> Rank(f) == 10
  {
  }

  /** Before stage `k`: exactly the objects in scope of the earlier stages
      are recorded. */
  ghost predicate Reached(r: Renderer, k: nat) {
    forall f :: Get(r.t, f) != 0 <==> Rank(f) < k && InScope(r, f)
  }

  /** A renderer that has reached a stage keeps every object in scope:
      every device child it records comes after the device, which it
      therefore records too. */
  lemma ReachedScoped(r: Renderer, k: nat)
    requires Reached(r, k)
    ensures Scoped(r)
  {
    forall f | Get(r.t, f) != 0 && DeviceChild(KindOf(f))
      ensures Get(r.t, DeviceF) != 0
    {
      assert Rank(f) >= 4;
      assert Get(r.t, InstanceF) != 0 by {
        assert Rank(InstanceF) < k && InScope(r, InstanceF);
      }
      assert InScope(r, DeviceF);
    }
  }

  /** A stage changes only the fields of its rank and, of the counters,
      only the one it sets; the scope of the earlier stages stays as it
      was. */
  predicate StageFrame(r: Renderer, p: Renderer, k: nat) {
    && p.meshCount == r.meshCount
    && (k != 4 ==> p.swapchain.imageCount == r.swapchain.imageCount)
    && (k != 11 ==> p.framebufferCount == r.framebufferCount)
  }

  /** The scope of the fields of the earlier stages does not change during
      stage `k`. */
  lemma EarlierScope(r: Renderer, p: Renderer, k: nat, f: Field)
    requires StageFrame(r, p, k) && Rank(f) < k
    requires Get(p.t, InstanceF) == Get(r.t, InstanceF)
    ensures InScope(p, f) == InScope(r, f)
  {
  }

  /** A stage that fills exactly the objects of its rank that are in scope
      reaches the next stage. */
  lemma StageReached(r: Renderer, p: Renderer, k: nat)
    requires 1 <= k <= 11 && Reached(r, k) && StageFrame(r, p, k)
    requires forall f :: Rank(f) != k ==> Get(p.t, f) == Get(r.t, f)
    requires forall f :: Rank(f) == k ==> (Get(p.t, f) != 0 <==> InScope(p, f))
    ensures Reached(p, k + 1)
  {
    forall f
      ensures Get(p.t, f) != 0 <==> Rank(f) < k + 1 && InScope(p, f)
    {
      if Rank(f) < k {
        EarlierScope(r, p, k, f);
      }
    }
  }

  /** A stage, even a failing one, that records only objects in scope
      keeps every object in scope. */
  lemma StageScoped(r: Renderer, p: Renderer, k: nat)
    requires 1 <= k <= 11 && Reached(r, k) && StageFrame(r, p, k)
    requires forall f :: Rank(f) != k ==> Get(p.t, f) == Get(r.t, f)
    requires forall f :: Rank(f) == k && Get(p.t, f) != 0 ==> InScope(p, f)
    ensures Scoped(p)
  {
    forall f | Get(p.t, f) != 0
      ensures InScope(p, f) && (DeviceChild(KindOf(f)) ==> Get(p.t, DeviceF) != 0)
    {
      if Rank(f) != k {
        EarlierScope(r, p, k, f);
      }
      if DeviceChild(KindOf(f)) {
        assert Rank(f) >= 4;
        assert Get(r.t, InstanceF) != 0 by {
          assert Rank(InstanceF) < k && InScope(r, InstanceF);
        }
        assert InScope(r, DeviceF);
      }
    }
  }

  /** A freshly zeroed renderer on a device with nothing live keeps the
      lifetime invariant and has reached the first stage. */
  lemma ZeroedWhole(g: Gpu, hasWindow: bool)
    requires g.Valid() && g.live == map[]
    ensures Whole(Zeroed(g).(hasWindow := hasWindow)) && Reached(Zeroed(g).(hasWindow := hasWindow), 1)
  {
  }

  /** The status `renderer_create` reports for a failed graphics call. */
  function VkStatus(res: VkResult): (s: Status)
    ensures s == Ok <==> res == VkSuccess
    ensures s == Ok || s == ErrorVulkan
  {
    if res == VkSuccess then Ok else ErrorVulkan
  }

  // ---------------------------------------------------------------------
  // What the environment answers

  /** The answers of the arena, the window and the driver during
      `renderer_create`: the three arena pushes (the renderer, the render
      pass context and the pipeline context), the instance and surface
      results, the physical devices, the scratch pushes of device
      selection and the device result, the window's
      framebuffer size, the swapchain driver, the results of the repeated
      creations, and the camera-uniform script. */
  datatype CreateEnv = CreateEnv(
    rendererAlloc: bool, renderPassAlloc: bool, pipelineAlloc: bool,
    instanceRes: VkResult, surfaceRes: VkResult,
    devices: seq<Device.PhysicalDevice>, scratch: Device.Scratch, deviceRes: VkResult,
    width: u32, height: u32, swapchain: Swapchain.Driver,
    renderFinished: seq<VkResult>, sync: seq<VkResult>,
    commandRes: VkResult, renderPassRes: VkResult, pipelineRes: VkResult,
    camera: CameraEnv, framebuffers: seq<VkResult>)

  /** The answers stage `k` needs to succeed, for the stages whose success
      turns on single answers. */
  predicate StageScriptOk(env: CreateEnv, k: nat) {
    match k
    case 1 => env.instanceRes == VkSuccess
    case 2 => env.surfaceRes == VkSuccess
    case 3 => env.deviceRes == VkSuccess && Device.Selectable(env.devices, env.scratch)
    case 4 => env.swapchain.createRes == VkSuccess
    case 7 => env.commandRes == VkSuccess
    case 8 => env.renderPassAlloc && env.renderPassRes == VkSuccess
    case 9 => env.pipelineAlloc && env.pipelineRes == VkSuccess
    case 10 => CameraScriptOk(env.camera)
    case _ => true
  }

  // ---------------------------------------------------------------------
  // Stages that create one object

  /** The object a single-object stage creates: the instance, the surface,
      the command pool, the render pass or the pipeline. */
  function SingleOf(k: nat): (f: Field)
    requires k == 1 || k == 2 || k == 7 || k == 8 || k == 9
    ensures Rank(f) == k && forall f' :: Rank(f') == k ==> f' == f
  {
    if k == 1 then InstanceF else if k == 2 then SurfaceF
    else if k == 7 then CommandPoolF else if k == 8 then RenderPassF else PipelineF
  }

  /** The parents of a single-object stage's object are recorded. */
  lemma SingleParents(r: Renderer, k: nat)
    requires k == 1 || k == 2 || k == 7 || k == 8 || k == 9
    requires Reached(r, k)
    ensures ParentsHeld(r.t, KindOf(SingleOf(k))) && InScope(r, SingleOf(k))
  {
    assert Rank(InstanceF) < k ==> Get(r.t, InstanceF) != 0 by {
      assert InScope(r, InstanceF);
    }
    if k >= 7 {
      assert InScope(r, DeviceF);
      DeviceChildParents(r.t, KindOf(SingleOf(k)));
    }
  }

  /** `vk_instance_create`, `window_create_surface`, `vk_command_create`,
      `vk_renderpass_create` and `vk_pipeline_create`: one object whose
      creation returns `res`. */
  method MakeSingle(r: Renderer, k: nat, res: VkResult) returns (p: Renderer)
    requires k == 1 || k == 2 || k == 7 || k == 8 || k == 9
    requires Whole(r) && Reached(r, k)
    ensures Whole(p) && p == r.(t := p.t, g := p.g) && p.g.faults == r.g.faults
    ensures Get(p.t, SingleOf(k)) != 0 <==> res == VkSuccess
    ensures res == VkSuccess ==> Reached(p, k + 1)
  {
    var f := SingleOf(k);
    SingleParents(r, k);
    MakeKeeps(r.t, r.g, f, res);
    var m := Make(r.t, r.g, f, res);
    p := r.(t := m.0, g := m.1);
    assert InScope(p, f);
    StageScoped(r, p, k);
    if res == VkSuccess {
      StageReached(r, p, k);
    }
  }

  // ---------------------------------------------------------------------
  // The device and the swapchain

  /** `vk_device_create` into the renderer: selects a physical device,
      records its queue families and creates the logical device. */
  method DeviceStage(r: Renderer, env: CreateEnv) returns (p: Renderer, st: Status)
    requires Whole(r) && Reached(r, 3)
    ensures Whole(p) && p.g.faults == r.g.faults && p == r.(t := p.t, g := p.g, fams := p.fams)
    ensures st == Ok || st == ErrorVulkan
    ensures st == Ok <==> StageScriptOk(env, 3)
    ensures st == Ok ==> Reached(p, 4)
  {
    assert Get(r.t, InstanceF) != 0 by {
      assert InScope(r, InstanceF);
    }
    var t1, g1, ctx, res := Device.Create(r.t, r.g, env.devices, env.scratch, env.deviceRes);
    p := r.(t := t1, g := g1, fams := ctx.families);
    st := VkStatus(res);
    assert InScope(p, DeviceF);
    assert forall f :: Rank(f) == 3 ==> f == DeviceF;
    StageScoped(r, p, 3);
    if res == VkSuccess {
      StageReached(r, p, 3);
    }
  }

  /** The views past the image count are null after a creation that
      leaves the context consistent, and views past the array are as
      before. */
  lemma SwapchainRank(t: Table, t1: Table, s: Swapchain.SwapchainState)
    requires Swapchain.Consistent(t1, s)
    requires forall f :: Rank(f) == 4 ==> Get(t, f) == 0
    requires forall f :: f !in Swapchain.CONTEXT_SET ==> Get(t1, f) == Get(t, f)
    ensures forall i :: s.imageCount <= i ==> Get(t1, ImageViewF(i)) == 0
  {
    Swapchain.ContextSetFacts();
    forall i | s.imageCount <= i
      ensures Get(t1, ImageViewF(i)) == 0
    {
      if i >= MAX_SWAPCHAIN_IMAGES {
        assert ImageViewF(i) !in Swapchain.CONTEXT_SET;
      }
    }
  }

  /** What a swapchain creation leaves in the renderer: the scope kept
      and, on success, the swapchain and exactly its views recorded. */
  lemma SwapchainFields(r: Renderer, p: Renderer, ok: bool)
    requires Reached(r, 4) && StageFrame(r, p, 4) && Swapchain.Consistent(p.t, p.swapchain)
    requires forall f :: f !in Swapchain.CONTEXT_SET ==> Get(p.t, f) == Get(r.t, f)
    requires ok ==> Get(p.t, SwapchainF) != 0 && forall i :: 0 <= i < p.swapchain.imageCount ==> Get(p.t, ImageViewF(i)) != 0
    ensures Scoped(p)
    ensures ok ==> Reached(p, 5)
  {
    Swapchain.ContextSetFacts();
    SwapchainRank(r.t, p.t, p.swapchain);
    assert forall f :: Rank(f) != 4 ==> f !in Swapchain.CONTEXT_SET;
    StageScoped(r, p, 4);
    if ok {
      StageReached(r, p, 4);
    }
  }

  /** `vk_swapchain_create` on the renderer's handles with the window's
      framebuffer size and no old swapchain; `ok` is its success. */
  method SwapchainCall(r: Renderer, env: CreateEnv) returns (p: Renderer, ok: bool)
    requires r.g.Valid() && |env.swapchain.support.formats| >= 1
    requires Get(r.t, DeviceF) != 0 && Get(r.t, SurfaceF) != 0
    requires forall f :: Rank(f) == 4 ==> Get(r.t, f) == 0
    ensures p.g.Valid() && (Tracks(r.t, r.g) ==> Tracks(p.t, p.g) && p.g.faults == r.g.faults)
    ensures p == r.(t := p.t, g := p.g, swapchain := p.swapchain) && Swapchain.Consistent(p.t, p.swapchain)
    ensures forall f :: f !in Swapchain.CONTEXT_SET ==> Get(p.t, f) == Get(r.t, f)
    ensures ok ==> Get(p.t, SwapchainF) != 0 && forall i :: 0 <= i < p.swapchain.imageCount ==> Get(p.t, ImageViewF(i)) != 0
    ensures ok ==> StageScriptOk(env, 4)
  {
    assert forall f :: f in Swapchain.CONTEXT_SET ==> Get(r.t, f) == 0 by {
      Swapchain.ContextSetFacts();
      assert forall f :: f in Swapchain.CONTEXT_SET ==> Rank(f) == 4;
    }
    if Tracks(r.t, r.g) {
      Swapchain.CreateKeeps(r.t, r.g, r.fams, env.width, env.height, NULL_HANDLE, env.swapchain);
    }
    var c := Swapchain.Create(r.t, r.g, r.fams, env.width, env.height, NULL_HANDLE, env.swapchain);
    p := r.(t := c.t, g := c.g, swapchain := c.state);
    ok := c.res == VkSuccess;
  }

  /** The swapchain call of `renderer_create` over the as-written
      `vk_swapchain_create`. When the first image view fails, the stage
      fails and the renderer keeps the destroyed swapchain's handle with
      every view null, so the swapchain step of the teardown on the failure
      path (`vk_swapchain_destroy` inside `renderer_destroy`) destroys it a
      second time. The stages after this one have created nothing, so no
      earlier teardown step touches the swapchain context. */
  method AsWrittenSwapchainCall(r: Renderer, env: CreateEnv) returns (p: Renderer, ok: bool)
    requires r.g.Valid() && |env.swapchain.support.formats| >= 1
    ensures p.g.Valid() && p == r.(t := p.t, g := p.g, swapchain := p.swapchain)
    ensures p.swapchain.imageCount <= MAX_SWAPCHAIN_IMAGES
    ensures forall f :: f !in Swapchain.CONTEXT_SET ==> Get(p.t, f) == Get(r.t, f)
    ensures env.swapchain.createRes == VkSuccess && env.swapchain.reported >= 1 && ResultAt(env.swapchain.viewResults, 0) != VkSuccess ==>
      !ok && Swapchain.Destroy(p.t, p.g, p.swapchain).1.faults == p.g.faults + 1
  {
    var c := Swapchain.AsWrittenCreate(r.t, r.g, r.fams, env.width, env.height, NULL_HANDLE, env.swapchain);
    if env.swapchain.createRes == VkSuccess && env.swapchain.reported >= 1 && ResultAt(env.swapchain.viewResults, 0) != VkSuccess {
      Swapchain.AsWrittenDestroyFaults(r.t, r.g, r.fams, env.width, env.height, NULL_HANDLE, env.swapchain);
    }
    p := r.(t := c.t, g := c.g, swapchain := c.state);
    ok := c.res == VkSuccess;
  }

  /** A renderer past the device stage records the instance, the surface
      and the device. */
  lemma ReachedParents(r: Renderer, k: nat)
    requires Reached(r, k) && k >= 4
    ensures Get(r.t, InstanceF) != 0 && Get(r.t, SurfaceF) != 0 && Get(r.t, DeviceF) != 0
  {
    assert InScope(r, InstanceF);
    assert InScope(r, SurfaceF) && InScope(r, DeviceF);
  }

  /** `vk_swapchain_create` into the renderer. */
  method SwapchainStage(r: Renderer, env: CreateEnv) returns (p: Renderer, st: Status)
    requires Whole(r) && Reached(r, 4) && |env.swapchain.support.formats| >= 1
    ensures Whole(p) && p.g.faults == r.g.faults && p == r.(t := p.t, g := p.g, swapchain := p.swapchain)
    ensures st == Ok || st == ErrorVulkan
    ensures st == Ok ==> Reached(p, 5) && StageScriptOk(env, 4)
  {
    ReachedParents(r, 4);
    var ok;
    p, ok := SwapchainCall(r, env);
    st := if ok then Ok else ErrorVulkan;
    SwapchainFields(r, p, ok);
  }

  // ---------------------------------------------------------------------
  // The per-image and per-slot objects

  /** A creation of the render-finished semaphores leaves the slots past
      the image count as they were. */
  lemma RenderFinishedPast(r: Renderer, results: seq<VkResult>)
    requires r.g.Valid()
    ensures forall i: nat :: r.swapchain.imageCount <= i ==>
      Get(RendererSwapchain.CreateRenderFinished(r, results).r.t, RenderFinishedF(i)) == Get(r.t, RenderFinishedF(i))
  {
    var n := r.swapchain.imageCount;
    var fs := RenderFinishedFields(n);
    var m := MakeSeq(r.t, r.g, fs, results);
    forall i: nat | n <= i
      ensures Get(RendererSwapchain.CreateRenderFinished(r, results).r.t, RenderFinishedF(i)) == Get(r.t, RenderFinishedF(i))
    {
      assert RenderFinishedF(i) !in fs;
      if m.res != VkSuccess {
        assert RenderFinishedF(i) !in RenderFinishedFields(m.made);
      }
    }
  }

  /** What a creation of the render-finished semaphores leaves in the
      renderer: the scope kept and, on success, exactly the semaphores of
      the images recorded. */
  lemma RenderFinishedFields5(r: Renderer, p: Renderer, ok: bool, made: nat)
    requires Reached(r, 5) && StageFrame(r, p, 5) && made <= p.swapchain.imageCount
    requires ok ==> forall i: nat :: 0 <= i < p.swapchain.imageCount ==> Get(p.t, RenderFinishedF(i)) != 0
    requires !ok ==> forall i: nat :: 0 <= i <= made ==> Get(p.t, RenderFinishedF(i)) == 0
    requires forall i: nat :: made < i ==> Get(p.t, RenderFinishedF(i)) == Get(r.t, RenderFinishedF(i))
    requires forall i: nat :: p.swapchain.imageCount <= i ==> Get(p.t, RenderFinishedF(i)) == Get(r.t, RenderFinishedF(i))
    requires forall f: Field :: !f.RenderFinishedF? ==> Get(p.t, f) == Get(r.t, f)
    ensures Scoped(p)
    ensures ok ==> Reached(p, 6)
  {
    forall f | Rank(f) == 5
      ensures Get(p.t, f) != 0 ==> InScope(p, f)
      ensures ok ==> (Get(p.t, f) != 0 <==> InScope(p, f))
    {
      assert f == RenderFinishedF(f.image);
    }
    StageScoped(r, p, 5);
    if ok {
      StageReached(r, p, 5);
    }
  }

  /** A renderer with the same handles and counters has reached the same
      stage, and its render-finished slots of the images are null. */
  lemma SameReached(r: Renderer, q: Renderer, k: nat)
    requires Reached(r, k) && Same(q.t, r.t) && k <= 5
    requires q.meshCount == r.meshCount && q.swapchain == r.swapchain && q.framebufferCount == r.framebufferCount
    ensures Reached(q, k)
    ensures forall i: nat :: 0 <= i < q.swapchain.imageCount ==> Get(q.t, RenderFinishedF(i)) == 0
  {
    assert forall f :: InScope(q, f) == InScope(r, f);
  }

  /** The `memset`s of the borrowed fences and of the render-finished
      array, on a renderer whose render-finished slots are already null. */
  method ClearImages(r: Renderer) returns (q: Renderer)
    requires forall f :: Rank(f) == 5 ==> Get(r.t, f) == 0
    ensures q == r.(t := q.t, imagesInFlight := Nulls(MAX_SWAPCHAIN_IMAGES)) && Same(q.t, r.t)
    ensures Tracks(r.t, r.g) ==> Tracks(q.t, q.g)
  {
    RenderFinishedSetFacts();
    q := r.(t := Zero(r.t, RENDER_FINISHED_SET), imagesInFlight := Nulls(MAX_SWAPCHAIN_IMAGES));
    assert forall f :: f in RENDER_FINISHED_SET ==> Get(r.t, f) == 0 by {
      assert forall f :: f in RENDER_FINISHED_SET ==> Rank(f) == 5;
    }
    if Tracks(r.t, r.g) {
      ZeroOfNulls(r.t, r.g, RENDER_FINISHED_SET);
    }
  }

  /** `renderer_internal_create_render_finished` on the renderer's handles,
      with every render-finished slot of the images null. */
  method RenderFinishedCall(q: Renderer, env: CreateEnv) returns (p: Renderer, ok: bool, made: nat)
    requires q.g.Valid() && Get(q.t, DeviceF) != 0
    requires forall i: nat :: 0 <= i < q.swapchain.imageCount ==> Get(q.t, RenderFinishedF(i)) == 0
    ensures p.g.Valid() && (Tracks(q.t, q.g) ==> Tracks(p.t, p.g) && p.g.faults == q.g.faults)
    ensures p == q.(t := p.t, g := p.g) && made <= p.swapchain.imageCount
    ensures ok ==> forall i: nat :: 0 <= i < p.swapchain.imageCount ==> Get(p.t, RenderFinishedF(i)) != 0
    ensures !ok ==> forall i: nat :: 0 <= i <= made ==> Get(p.t, RenderFinishedF(i)) == 0
    ensures forall i: nat :: made < i ==> Get(p.t, RenderFinishedF(i)) == Get(q.t, RenderFinishedF(i))
    ensures forall i: nat :: p.swapchain.imageCount <= i ==> Get(p.t, RenderFinishedF(i)) == Get(q.t, RenderFinishedF(i))
    ensures forall f: Field :: !f.RenderFinishedF? ==> Get(p.t, f) == Get(q.t, f)
  {
    if Tracks(q.t, q.g) {
      RendererSwapchain.CreateRenderFinishedKeeps(q, env.renderFinished);
    }
    RendererSwapchain.CreateRenderFinishedTable(q, env.renderFinished);
    RenderFinishedPast(q, env.renderFinished);
    var b := RendererSwapchain.CreateRenderFinished(q, env.renderFinished);
    p := b.r;
    ok := b.res == VkSuccess;
    made := b.made;
  }

  /** The `memset`s and `renderer_internal_create_render_finished` into the
      renderer. */
  method RenderFinishedStage(r: Renderer, env: CreateEnv) returns (p: Renderer, st: Status)
    requires Whole(r) && Reached(r, 5)
    ensures Whole(p) && p.g.faults == r.g.faults && p == r.(t := p.t, g := p.g, imagesInFlight := p.imagesInFlight)
    ensures p.imagesInFlight == Nulls(MAX_SWAPCHAIN_IMAGES)
    ensures st == Ok || st == ErrorVulkan
    ensures st == Ok ==> Reached(p, 6)
  {
    ReachedParents(r, 5);
    var q := ClearImages(r);
    SameReached(r, q, 5);
    var ok, made;
    p, ok, made := RenderFinishedCall(q, env);
    st := if ok then Ok else ErrorVulkan;
    RenderFinishedFields5(q, p, ok, made);
  }

  /** The fields of stage 6 in scope are those of the two frame slots. */
  lemma SyncRank(f: Field)
    requires Rank(f) == 6
    ensures f in Sync.SYNC_SET <==> f.slot < MAX_FRAMES_IN_FLIGHT
    ensures f.slot < MAX_FRAMES_IN_FLIGHT ==>
      f == Sync.SYNC_FIELDS[3 * f.slot + (if f.ImageAvailableF? then 0 else if f.FrameFinishedF? then 1 else 2)]
  {
    Sync.SyncFieldsFacts();
  }

  /** What a creation of the frame-slot objects leaves in the renderer:
      the scope kept and, on success, exactly the objects of the two slots
      recorded. */
  lemma SyncFields(r: Renderer, p: Renderer, made: nat)
    requires Reached(r, 6) && StageFrame(r, p, 6)
    requires forall i :: 0 <= i < |Sync.SYNC_FIELDS| ==> (Get(p.t, Sync.SYNC_FIELDS[i]) != 0 <==> i < made)
    requires forall f :: f !in Sync.SYNC_SET ==> Get(p.t, f) == Get(r.t, f)
    ensures Scoped(p)
    ensures made == |Sync.SYNC_FIELDS| ==> Reached(p, 7)
  {
    Sync.SyncFieldsFacts();
    forall f | Rank(f) != 6
      ensures Get(p.t, f) == Get(r.t, f)
    {
      assert f !in Sync.SYNC_SET;
    }
    forall f | Rank(f) == 6
      ensures Get(p.t, f) != 0 ==> InScope(p, f)
      ensures made == |Sync.SYNC_FIELDS| ==> (Get(p.t, f) != 0 <==> InScope(p, f))
    {
      SyncRank(f);
    }
    StageScoped(r, p, 6);
    if made == |Sync.SYNC_FIELDS| {
      StageReached(r, p, 6);
    }
  }

  /** `vk_sync_create` on the renderer's handles; `made` counts the
      objects created. */
  method SyncCall(r: Renderer, env: CreateEnv) returns (p: Renderer, made: nat)
    requires r.g.Valid() && Get(r.t, DeviceF) != 0
    requires forall f :: Rank(f) == 6 ==> Get(r.t, f) == 0
    ensures p.g.Valid() && (Tracks(r.t, r.g) ==> Tracks(p.t, p.g) && p.g.faults == r.g.faults)
    ensures p == r.(t := p.t, g := p.g, sync := p.sync) && p.sync.Valid()
    ensures forall i :: 0 <= i < |Sync.SYNC_FIELDS| ==> (Get(p.t, Sync.SYNC_FIELDS[i]) != 0 <==> i < made)
    ensures forall f :: f !in Sync.SYNC_SET ==> Get(p.t, f) == Get(r.t, f)
  {
    assert forall f :: f in Sync.SYNC_SET ==> Get(r.t, f) == 0 by {
      Sync.SyncFieldsFacts();
      assert forall f :: f in Sync.SYNC_SET ==> Rank(f) == 6;
    }
    if Tracks(r.t, r.g) {
      Sync.CreateKeeps(r.t, r.g, env.sync);
    }
    Sync.CreatedPrefix(r.t, r.g, env.sync);
    Sync.CreatedFrame(r.t, r.g, env.sync);
    var c := Sync.Create(r.t, r.g, env.sync);
    p := r.(t := c.batch.t, g := c.batch.g, sync := c.state);
    made := c.batch.made;
  }

  /** `vk_sync_create` into the renderer. */
  method SyncStage(r: Renderer, env: CreateEnv) returns (p: Renderer, st: Status)
    requires Whole(r) && Reached(r, 6)
    ensures Whole(p) && p.g.faults == r.g.faults && p == r.(t := p.t, g := p.g, sync := p.sync)
    ensures st == Ok || st == ErrorVulkan
    ensures st == Ok ==> Reached(p, 7)
  {
    ReachedParents(r, 6);
    var made;
    p, made := SyncCall(r, env);
    st := if made == |Sync.SYNC_FIELDS| then Ok else ErrorVulkan;
    SyncFields(r, p, made);
  }

  /** `renderer_internal_create_camera_uniforms` into the renderer. */
  method CameraStage(r: Renderer, env: CreateEnv) returns (p: Renderer, st: Status)
    requires Whole(r) && Reached(r, 10)
    ensures Whole(p) && p.g.faults == r.g.faults && p == r.(t := p.t, g := p.g, uniformMapped := p.uniformMapped)
    ensures st == Ok || st == ErrorVulkan
    ensures st == Ok ==> Reached(p, 11) && StageScriptOk(env, 10) && p.uniformMapped == [true, true]
  {
    assert Get(r.t, DeviceF) != 0 by {
      assert InScope(r, InstanceF) && InScope(r, DeviceF);
    }
    assert CameraEmpty(r.t) by {
      CameraEmptyMeans(r.t);
      forall f | CameraField(f)
        ensures Get(r.t, f) == 0
      {
        CameraRank(f);
      }
    }
    var res;
    p, res := CreateCameraUniforms(r, env.camera);
    st := VkStatus(res);
    CameraEmptyMeans(p.t);
    forall f
      ensures Rank(f) != 10 ==> Get(p.t, f) == Get(r.t, f)
      ensures Rank(f) == 10 ==> InScope(p, f) && (st == Ok ==> Get(p.t, f) != 0) && (st != Ok ==> Get(p.t, f) == 0)
    {
      CameraRank(f);
    }
    StageScoped(r, p, 10);
    if st == Ok {
      StageReached(r, p, 10);
    }
  }

  /** What a creation of the framebuffers leaves in the renderer: the
      scope kept and, on success, exactly one framebuffer per image. */
  lemma FramebufferFields11(r: Renderer, p: Renderer, ok: bool, made: nat)
    requires Reached(r, 11) && StageFrame(r, p, 11) && p.framebufferCount == r.swapchain.imageCount
    requires made <= p.framebufferCount && (ok <==> made == p.framebufferCount)
    requires forall i: nat :: 0 <= i < made ==> Get(p.t, FramebufferF(i)) != 0
    requires !ok ==> Get(p.t, FramebufferF(made)) == 0
    requires forall i: nat :: made < i ==> Get(p.t, FramebufferF(i)) == Get(r.t, FramebufferF(i))
    requires forall i: nat :: p.framebufferCount <= i ==> Get(p.t, FramebufferF(i)) == Get(r.t, FramebufferF(i))
    requires forall f: Field :: !f.FramebufferF? ==> Get(p.t, f) == Get(r.t, f)
    ensures Scoped(p)
    ensures ok ==> Reached(p, 12)
  {
    forall f | Rank(f) == 11
      ensures Get(p.t, f) != 0 ==> InScope(p, f)
      ensures ok ==> (Get(p.t, f) != 0 <==> InScope(p, f))
    {
      assert f == FramebufferF(f.image);
    }
    StageScoped(r, p, 11);
    if ok {
      StageReached(r, p, 11);
    }
  }

  /** `renderer_internal_create_framebuffers` into the renderer. */
  method FramebufferStage(r: Renderer, env: CreateEnv) returns (p: Renderer, st: Status)
    requires Whole(r) && Reached(r, 11)
    ensures Whole(p) && p.g.faults == r.g.faults && p == r.(t := p.t, g := p.g, framebufferCount := p.framebufferCount)
    ensures p.framebufferCount == p.swapchain.imageCount
    ensures st == Ok || st == ErrorVulkan
    ensures st == Ok ==> Reached(p, 12)
  {
    assert Get(r.t, DeviceF) != 0 by {
      assert InScope(r, InstanceF) && InScope(r, DeviceF);
    }
    assert forall i: nat :: 0 <= i < r.swapchain.imageCount ==> Get(r.t, FramebufferF(i)) == 0 by {
      assert forall i: nat :: Rank(FramebufferF(i)) == 11;
    }
    RendererSwapchain.CreateFramebuffersKeeps(r, env.framebuffers);
    RendererSwapchain.CreateFramebuffersTable(r, env.framebuffers);
    var b := RendererSwapchain.CreateFramebuffers(r, env.framebuffers);
    p := b.r;
    st := VkStatus(b.res);
    FramebufferFields11(r, p, b.res == VkSuccess, b.made);
  }

  // ---------------------------------------------------------------------
  // renderer_create

  /** A single-object stage of `renderer_create`, with the arena checks
      before the render pass and the pipeline. */
  method SingleStage(r: Renderer, k: nat, env: CreateEnv) returns (p: Renderer, st: Status)
    requires (k == 1 || k == 2 || k == 7 || k == 8 || k == 9) && Whole(r) && Reached(r, k)
    ensures Whole(p) && p.g.faults == r.g.faults
    ensures p == r.(t := p.t, g := p.g)
    ensures st == Ok || st == ErrorVulkan || st == ErrorOutOfMemory
    ensures st == Ok ==> Reached(p, k + 1) && StageScriptOk(env, k)
    ensures st == ErrorOutOfMemory ==> (k == 8 && !env.renderPassAlloc) || (k == 9 && !env.pipelineAlloc)
  {
    if k == 8 && !env.renderPassAlloc {
      p, st := r, ErrorOutOfMemory;
    } else if k == 9 && !env.pipelineAlloc {
      p, st := r, ErrorOutOfMemory;
    } else {
      var res := match k
        case 1 => env.instanceRes
        case 2 => env.surfaceRes
        case 7 => env.commandRes
        case 8 => env.renderPassRes
        case _ => env.pipelineRes;
      p := MakeSingle(r, k, res);
      st := VkStatus(res);
    }
  }

  /** Stage `k` of `renderer_create`. On success the next stage is
      reached; on failure the renderer still keeps the lifetime invariant. */
  method Stage(r: Renderer, k: nat, env: CreateEnv) returns (p: Renderer, st: Status)
    requires 1 <= k <= 11 && Whole(r) && Reached(r, k) && |env.swapchain.support.formats| >= 1
    ensures Whole(p) && p.g.faults == r.g.faults
    ensures p.meshCount == r.meshCount && p.hasWindow == r.hasWindow
    ensures st == Ok || st == ErrorVulkan || st == ErrorOutOfMemory
    ensures st == Ok ==> Reached(p, k + 1) && StageScriptOk(env, k)
    ensures st == ErrorOutOfMemory ==> (k == 8 && !env.renderPassAlloc) || (k == 9 && !env.pipelineAlloc)
    ensures k != 10 ==> p.uniformMapped == r.uniformMapped
    ensures k == 10 && st == Ok ==> p.uniformMapped == [true, true]
    ensures k == 11 ==> p.framebufferCount == p.swapchain.imageCount
  {
    if k == 1 || k == 2 || k == 7 || k == 8 || k == 9 {
      p, st := SingleStage(r, k, env);
    } else if k == 3 {
      p, st := DeviceStage(r, env);
    } else if k == 4 {
      p, st := SwapchainStage(r, env);
    } else if k == 5 {
      p, st := RenderFinishedStage(r, env);
    } else if k == 6 {
      p, st := SyncStage(r, env);
    } else if k == 10 {
      p, st := CameraStage(r, env);
    } else {
      p, st := FramebufferStage(r, env);
    }
  }

  /** A renderer holds exactly the objects in scope. */
  ghost predicate Full(r: Renderer) {
    forall f :: Get(r.t, f) != 0 <==> InScope(r, f)
  }

  /** After the last stage the renderer holds exactly its objects in
      scope: the stage-12 fields are out of scope without meshes. */
  lemma ReachedFull(r: Renderer)
    requires Reached(r, 12) && r.meshCount == 0
    ensures Full(r)
  {
    forall f | Rank(f) == 12
      ensures !InScope(r, f)
    {
    }
  }

  /** `renderer_create` on a device with nothing live. Without the
      renderer's own allocation nothing happens. Otherwise the renderer is
      zeroed, bound to the window and built stage by stage; on success it
      keeps the lifetime invariant, holds exactly the objects in scope, one
      framebuffer per image, both uniform slots mapped and no mesh. On any
      failure it is torn down: nothing is left live. No object is ever
      destroyed while a child of it lives. */
  method Create(g: Gpu, env: CreateEnv) returns (st: Status, out: Option<Renderer>, g1: Gpu)
    requires g.Valid() && g.live == map[] && |env.swapchain.support.formats| >= 1
    ensures g1.Valid() && g1.faults == g.faults
    ensures st == Ok <==> out.Some?
    ensures st == Ok || st == ErrorVulkan || st == ErrorOutOfMemory
    ensures !env.rendererAlloc ==> st == ErrorOutOfMemory && g1 == g
    ensures st == ErrorOutOfMemory ==> !env.rendererAlloc || !env.renderPassAlloc || !env.pipelineAlloc
    ensures st != Ok ==> g1.live == map[]
    ensures st == Ok ==> forall k :: 1 <= k <= 11 ==> StageScriptOk(env, k)
    ensures out.Some? ==>
      var r := out.value;
      && r.g == g1 && Whole(r) && Full(r)
      && r.framebufferCount == r.swapchain.imageCount && r.uniformMapped == [true, true]
      && r.meshCount == 0 && r.hasWindow
  {
    if !env.rendererAlloc {
      return ErrorOutOfMemory, None, g;
    }
    var r := Zeroed(g).(hasWindow := true);
    ZeroedWhole(g, true);
    st := Ok;
    for k := 1 to 12
      invariant Whole(r) && r.g.faults == g.faults && r.meshCount == 0 && r.hasWindow
      invariant st == Ok || st == ErrorVulkan || st == ErrorOutOfMemory
      invariant st == ErrorOutOfMemory ==> !env.renderPassAlloc || !env.pipelineAlloc
      invariant st == Ok ==> Reached(r, k) && forall j :: 1 <= j < k ==> StageScriptOk(env, j)
      invariant st == Ok && k > 10 ==> r.uniformMapped == [true, true]
      invariant st == Ok && k > 11 ==> r.framebufferCount == r.swapchain.imageCount
    {
      if st == Ok {
        r, st := Stage(r, k, env);
      }
    }
    if st == Ok {
      ReachedFull(r);
      return Ok, Some(r), r.g;
    }
    var d := RendererLifetime.Destroy(r);
    return st, None, d.g;
  }
}
