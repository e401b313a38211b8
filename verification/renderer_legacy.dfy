/** The earlier renderer revision of `renderer/renderer.c`: its frame, its
    resize, its swapchain recreation and semaphore creation, and the
    hand-written unwinding of its initialisation.

    The frame ignores the results of every wait, of the fence reset's
    caller and of the command recording, and advances the frame slot
    whenever the submission succeeded, whatever the presentation answered.
    The resize clears the stale mark even when the recreation failed.
    Recreation destroys the framebuffers by dropping the whole array, which
    has the effect of the corrected destruction of the later revision. */
module RendererLegacy {
  import opened Common
  import opened Ledger
  import Sync
  import Window
  import opened RendererInternal
  import RendererSwapchain
  import RendererFrame

  // ---------------------------------------------------------------------
  // The frame

  /** What the driver answers during one frame, for the calls whose
      results the frame looks at (and the fence reset, whose effect on the
      fence depends on its result even though the frame ignores it). */
  datatype LegacyEnv = LegacyEnv(
    acquireRes: VkResult,   // `vkAcquireNextImageKHR`
    imageIndex: nat,        // the image it hands out
    resetRes: VkResult,     // `vk_sync_reset_fence`
    submitRes: VkResult,    // `vkQueueSubmit`
    presentRes: VkResult)   // `vkQueuePresentKHR`

  /** What a frame needs: the fixed arrays have their sizes and the driver
      hands out an index below the image count. */
  predicate Fits(r: Renderer, env: LegacyEnv) {
    && r.sync.Valid() && |r.imagesInFlight| == MAX_SWAPCHAIN_IMAGES
    && r.swapchain.imageCount <= MAX_SWAPCHAIN_IMAGES
    && (Acquired(env) ==> env.imageIndex < r.swapchain.imageCount)
  }

  /** The acquisition handed out an image. */
  predicate Acquired(env: LegacyEnv) {
    env.acquireRes == VkSuccess || env.acquireRes == VkSuboptimal
  }

  /** The frame found the swapchain stale: at the acquisition, or at the
      presentation of a submitted frame. */
  predicate Stale(env: LegacyEnv) {
    || env.acquireRes == VkErrorOutOfDate
    || (Acquired(env) && env.submitRes == VkSuccess
        && (env.presentRes == VkErrorOutOfDate || env.presentRes == VkSuboptimal))
  }

  /** `renderer_draw_frame`. It creates and destroys nothing; it marks the
      swapchain stale exactly when the acquisition or the presentation
      said so, and otherwise leaves the mark as it was. */
  function DrawFrame(r: Renderer, env: LegacyEnv): (p: Renderer)
    requires Fits(r, env)
    ensures p.t == r.t && p.g == r.g && p.swapchain == r.swapchain && p.framebufferCount == r.framebufferCount
    ensures p.sync.Valid() && |p.imagesInFlight| == MAX_SWAPCHAIN_IMAGES
    ensures p.needsRecreation <==> r.needsRecreation || Stale(env)
  {
    if env.acquireRes == VkErrorOutOfDate then r.(needsRecreation := true)
    else if !Acquired(env) then r
    else
      var index := env.imageIndex;
      var (sync, _) := Sync.ResetFence(r.sync, env.resetRes);
      var r1 := r.(sync := sync, imagesInFlight := r.imagesInFlight[index := Get(r.t, InFlightF(r.sync.currentFrame))]);
      if env.submitRes != VkSuccess then r1
      else
        var r2 := if env.presentRes == VkErrorOutOfDate || env.presentRes == VkSuboptimal
          then r1.(needsRecreation := true) else r1;
        r2.(sync := Sync.Advance(r2.sync))
  }

  /** A stale acquisition only sets the mark; any other failed acquisition
      returns with the renderer untouched: no fence reset, no advance. */
  lemma DrawFrameEarlyReturns(r: Renderer, env: LegacyEnv)
    requires Fits(r, env)
    ensures env.acquireRes == VkErrorOutOfDate ==> DrawFrame(r, env) == r.(needsRecreation := true)
    ensures !Acquired(env) && env.acquireRes != VkErrorOutOfDate ==> DrawFrame(r, env) == r
  {
  }

  /** Once an image is acquired, the current slot's fence is reset (when
      the reset succeeds) and recorded as the image's fence; the other
      images keep theirs and the other slot's fence keeps its state. */
  lemma DrawFrameRecordsFence(r: Renderer, env: LegacyEnv)
    requires Fits(r, env) && Acquired(env)
    ensures var p := DrawFrame(r, env);
      && p.imagesInFlight[env.imageIndex] == Get(r.t, InFlightF(r.sync.currentFrame))
      && (forall i :: 0 <= i < MAX_SWAPCHAIN_IMAGES && i != env.imageIndex ==> p.imagesInFlight[i] == r.imagesInFlight[i])
      && (env.resetRes == VkSuccess ==> !p.sync.signaled[r.sync.currentFrame])
      && (forall k :: 0 <= k < MAX_FRAMES_IN_FLIGHT && k != r.sync.currentFrame ==> p.sync.signaled[k] == r.sync.signaled[k])
  {
  }

  /** The frame slot moves on exactly when an image was acquired and the
      submission succeeded, whatever the presentation answered. */
  lemma DrawFrameAdvances(r: Renderer, env: LegacyEnv)
    requires Fits(r, env)
    ensures var p := DrawFrame(r, env);
      && (Acquired(env) && env.submitRes == VkSuccess ==>
            p.sync.currentFrame == (r.sync.currentFrame + 1) % MAX_FRAMES_IN_FLIGHT)
      && (!(Acquired(env) && env.submitRes == VkSuccess) ==> p.sync.currentFrame == r.sync.currentFrame)
  {
  }

  /** A frame keeps the ownership invariant and the per-image fences stay
      borrowed from the frame slots. */
  lemma DrawFrameKeeps(r: Renderer, env: LegacyEnv)
    requires Fits(r, env) && Owned(r) && RendererFrame.FencesBorrowed(r)
    ensures Owned(DrawFrame(r, env)) && RendererFrame.FencesBorrowed(DrawFrame(r, env))
  {
    var p := DrawFrame(r, env);
    if Acquired(env) && env.acquireRes != VkErrorOutOfDate {
      assert r.sync.currentFrame == 0 || r.sync.currentFrame == 1;
      forall i | 0 <= i < MAX_SWAPCHAIN_IMAGES
        ensures RendererFrame.Borrowed(p.t, p.imagesInFlight[i])
      {
        if i != env.imageIndex {
          assert p.imagesInFlight[i] == r.imagesInFlight[i];
        }
      }
    }
  }

  /** The later revision's frame answers with everything succeeded but
      the presentation, and no resize pending. */
  function LaterEnv(env: LegacyEnv, pixelWidth: int, pixelHeight: int, recreate: RendererSwapchain.RecreateEnv): (e: RendererFrame.FrameEnv)
    ensures e.acquireRes == env.acquireRes && e.imageIndex == env.imageIndex && e.presentRes == env.presentRes
    ensures e.submitRes == env.submitRes && e.resetRes == env.resetRes
  {
    RendererFrame.FrameEnv(VkSuccess, env.acquireRes, env.imageIndex, VkSuccess, env.resetRes,
      VkSuccess, VkSuccess, env.submitRes, env.presentRes, pixelWidth, pixelHeight, recreate)
  }

  /** Where the revisions part: a submitted frame whose presentation fails
      with an error other than a stale swapchain moves the earlier
      revision's frame slot on, while the later revision keeps it and
      reports the error. */
  lemma PresentErrorStillAdvances(r: Renderer, env: LegacyEnv, pixelWidth: int, pixelHeight: int,
                                  recreate: RendererSwapchain.RecreateEnv)
    requires Fits(r, env) && r.g.Valid() && |recreate.swapchain.support.formats| >= 1 && !r.needsRecreation
    requires Acquired(env) && env.resetRes == VkSuccess && env.submitRes == VkSuccess
    requires env.presentRes !in {VkSuccess, VkErrorOutOfDate, VkSuboptimal}
    ensures DrawFrame(r, env).sync.currentFrame != r.sync.currentFrame
    ensures var f := RendererFrame.Draw(r, true, LaterEnv(env, pixelWidth, pixelHeight, recreate));
      f.status == ErrorVulkan && f.r.sync.currentFrame == r.sync.currentFrame
  {
    var e := LaterEnv(env, pixelWidth, pixelHeight, recreate);
    assert RendererFrame.Ready(r, e);
    RendererFrame.DrawAdvances(r, true, e);
  }

  // ---------------------------------------------------------------------
  // Resize and recreation

  /** `recreate_swapchain`: destroy the framebuffers and drop their array,
      destroy the semaphores, recreate the swapchain, then clear the fence
      copies and the semaphore slots and create the semaphores and the
      framebuffers, stopping at the first failure. Dropping the array and
      taking a fresh one has the effect of the later revision's destruction
      with every destroyed slot cleared. */
  function RecreateSwapchain(r: Renderer, width: u32, height: u32, env: RendererSwapchain.RecreateEnv): (p: RendererSwapchain.Recreated)
    requires r.g.Valid() && r.swapchain.imageCount <= MAX_SWAPCHAIN_IMAGES && |env.swapchain.support.formats| >= 1
    ensures p.r.g.Valid()
    ensures p.res == VkSuccess ==> p.reached == RendererSwapchain.FramebufferStage
    ensures p.reached == RendererSwapchain.SwapchainStage ==> p.res != VkSuccess && p.r.imagesInFlight == r.imagesInFlight
    ensures p.reached != RendererSwapchain.SwapchainStage ==> p.r.imagesInFlight == Nulls(MAX_SWAPCHAIN_IMAGES)
  {
    RendererSwapchain.Rebuild(RendererSwapchain.DestroyFramebuffers(r), width, height, env)
  }

  /** Recreating keeps the ownership invariant, raises no fault with the
      device and surface recorded, and leaves nothing behind that a later
      destruction of the framebuffers would destroy a second time. */
  lemma RecreateKeeps(r: Renderer, width: u32, height: u32, env: RendererSwapchain.RecreateEnv)
    requires Owned(r) && |env.swapchain.support.formats| >= 1
    ensures var p := RecreateSwapchain(r, width, height, env);
      && Owned(p.r)
      && (Parents(r) ==> p.r.g.faults == r.g.faults)
      && RendererSwapchain.DestroyFramebuffers(p.r).g.faults == p.r.g.faults
  {
    RendererSwapchain.RecreateKeeps(r, width, height, env);
    RendererSwapchain.RecreateThenDestroyClean(r, width, height, env);
  }

  /** `create_framebuffers` as written takes a fresh array from the arena
      without initialising it and sets the count to the image count before
      creating anything. When the first framebuffer fails, the count still
      covers the second entry, which holds whatever the arena memory held
      (`junk`), and `destroy_framebuffers`, which destroys every non-null
      entry below the count, hands that value to `vkDestroyFramebuffer`. */
  lemma AsWrittenUninitialisedFramebufferDestroyed(r: Renderer, results: seq<VkResult>, junk: nat)
    requires r.g.Valid() && 2 <= r.swapchain.imageCount <= MAX_SWAPCHAIN_IMAGES
    requires ResultAt(results, 0) != VkSuccess && junk != 0
    ensures var b := RendererSwapchain.CreateFramebuffers(r.(t := r.t[FramebufferF(1) := junk]), results);
      && b.res != VkSuccess && b.made == 0
      && b.r.framebufferCount == r.swapchain.imageCount && Get(b.r.t, FramebufferF(1)) == junk
      && DestroyCalls(RendererSwapchain.AsWrittenDestroyFramebuffers(b.r).g.log, junk) > DestroyCalls(b.r.g.log, junk)
  {
    var r1 := r.(t := r.t[FramebufferF(1) := junk]);
    RendererSwapchain.CreateFramebuffersTable(r1, results);
    var b := RendererSwapchain.CreateFramebuffers(r1, results);
    assert b.made == 0;
    RendererSwapchain.AsWrittenDestroysSecond(b.r);
  }

  /** `create_render_finished` into empty slots: on a failure at image `i`
      the semaphores before it are destroyed and cleared, so the device is
      back to the live objects it had; on success every image has one.
      `destroy_render_finished` clears every slot of the images. */
  lemma RenderFinishedRollback(r: Renderer, results: seq<VkResult>)
    requires r.g.Valid() && Tracks(r.t, r.g) && Get(r.t, DeviceF) != 0
    requires forall i: nat :: 0 <= i < r.swapchain.imageCount ==> Get(r.t, RenderFinishedF(i)) == 0
    ensures var b := RendererSwapchain.CreateRenderFinished(r, results);
      && (b.res != VkSuccess ==>
            b.r.g.live == r.g.live && forall i: nat :: 0 <= i <= b.made ==> Get(b.r.t, RenderFinishedF(i)) == 0)
      && (b.res == VkSuccess ==> forall i: nat :: 0 <= i < r.swapchain.imageCount ==> Get(b.r.t, RenderFinishedF(i)) != 0)
      && b.r.g.faults == r.g.faults
    ensures var b := RendererSwapchain.CreateRenderFinished(r, results);
      forall i: nat :: 0 <= i < r.swapchain.imageCount ==>
        Get(RendererSwapchain.DestroyRenderFinished(b.r).t, RenderFinishedF(i)) == 0
  {
    RendererSwapchain.CreateRenderFinishedKeeps(r, results);
    RendererSwapchain.CreateRenderFinishedTable(r, results);
    var b := RendererSwapchain.CreateRenderFinished(r, results);
    if b.res != VkSuccess {
      assert Same(b.r.t, r.t) by {
        forall f: Field ensures Get(b.r.t, f) == Get(r.t, f) {
          if f.RenderFinishedF? && f.image < r.swapchain.imageCount {
            assert f.image <= b.made || b.made < f.image;
          }
        }
      }
      SameTableSameLive(b.r.t, b.r.g, r.t, r.g);
    }
  }

  /** `renderer_handle_resize`. A window with no area returns at once and
      leaves even the stale mark alone; otherwise the swapchain is
      recreated and the mark cleared, whatever the recreation answered. */
  function HandleResize(r: Renderer, pixelWidth: int, pixelHeight: int, env: RendererSwapchain.RecreateEnv): (p: Renderer)
    requires r.g.Valid() && r.swapchain.imageCount <= MAX_SWAPCHAIN_IMAGES && |env.swapchain.support.formats| >= 1
    ensures p.g.Valid() && p.sync == r.sync && p.hasWindow == r.hasWindow
    ensures var (w, h) := Window.FramebufferSize(pixelWidth, pixelHeight);
      && (w == 0 || h == 0 ==> p == r)
      && (w != 0 && h != 0 ==> !p.needsRecreation)
  {
    var (width, height) := Window.FramebufferSize(pixelWidth, pixelHeight);
    if width == 0 || height == 0 then r
    else RecreateSwapchain(r, width, height, env).r.(needsRecreation := false)
  }

  /** A resize whose swapchain recreation failed still clears the mark:
      the renderer is left without a swapchain, framebuffers or
      semaphores, and the next frame does not ask for another resize
      until an acquisition fails. */
  lemma ResizeForgetsFailure(r: Renderer, pixelWidth: int, pixelHeight: int, env: RendererSwapchain.RecreateEnv)
    requires Owned(r) && |env.swapchain.support.formats| >= 1
    requires var (w, h) := Window.FramebufferSize(pixelWidth, pixelHeight);
      w != 0 && h != 0 && RecreateSwapchain(r, w, h, env).reached == RendererSwapchain.SwapchainStage
    ensures var p := HandleResize(r, pixelWidth, pixelHeight, env);
      && !p.needsRecreation && Get(p.t, SwapchainF) == 0 && RendererSwapchain.Cleared(p)
  {
    var (w, h) := Window.FramebufferSize(pixelWidth, pixelHeight);
    RendererSwapchain.RecreateOutcome(r, w, h, env);
  }

  /** A resize keeps the ownership invariant and the borrowed fences, and
      with the device and surface recorded raises no fault. */
  lemma ResizeKeeps(r: Renderer, pixelWidth: int, pixelHeight: int, env: RendererSwapchain.RecreateEnv)
    requires Owned(r) && RendererFrame.FencesBorrowed(r) && |env.swapchain.support.formats| >= 1
    ensures var p := HandleResize(r, pixelWidth, pixelHeight, env);
      && Owned(p) && RendererFrame.FencesBorrowed(p)
      && (Parents(r) ==> p.g.faults == r.g.faults)
  {
    var (w, h) := Window.FramebufferSize(pixelWidth, pixelHeight);
    if w != 0 && h != 0 {
      var q := RecreateSwapchain(r, w, h, env).r;
      RecreateKeeps(r, w, h, env);
      RendererFrame.RecreateBorrows(r, w, h, env);
      RendererFrame.FlagKeepsOwned(q, false);
    }
  }

  // ---------------------------------------------------------------------
  // Initialisation and its unwinding

  /** The creation steps of `renderer_init`, in order. */
  datatype InitStep =
    | InstanceStep | SurfaceStep | DeviceStep | SwapchainStep | RenderFinishedStep | SyncStep
    | CommandStep | RenderPassStep | PipelineStep | FramebufferStep | VertexStep | IndexStep

  const INIT_STEPS: nat := 12

  /** A step's place in the creation order. */
  function Order(s: InitStep): (n: nat)
    ensures n < INIT_STEPS
  {
    match s
    case InstanceStep => 0
    case SurfaceStep => 1
    case DeviceStep => 2
    case SwapchainStep => 3
    case RenderFinishedStep => 4
    case SyncStep => 5
    case CommandStep => 6
    case RenderPassStep => 7
    case PipelineStep => 8
    case FramebufferStep => 9
    case VertexStep => 10
    case IndexStep => 11
  }

  /** The step at a place in the creation order. */
  function StepAt(n: nat): (s: InitStep)
    requires n < INIT_STEPS
    ensures Order(s) == n
  {
    [InstanceStep, SurfaceStep, DeviceStep, SwapchainStep, RenderFinishedStep, SyncStep,
     CommandStep, RenderPassStep, PipelineStep, FramebufferStep, VertexStep, IndexStep][n]
  }

  /** The kinds of object a step creates. */
  function StepKinds(s: InitStep): set<Kind> {
    match s
    case InstanceStep => {InstanceK}
    case SurfaceStep => {SurfaceK}
    case DeviceStep => {DeviceK}
    case SwapchainStep => {SwapchainK, ImageViewK}
    case RenderFinishedStep => {SemaphoreK}
    case SyncStep => {SemaphoreK, FenceK}
    case CommandStep => {CommandPoolK}
    case RenderPassStep => {RenderPassK}
    case PipelineStep => {PipelineK}
    case FramebufferStep => {FramebufferK}
    case VertexStep => {BufferK, MemoryK}
    case IndexStep => {BufferK, MemoryK}
  }

  /** An object of step `a` is a child of an object of step `b`. */
  ghost predicate Needs(a: InitStep, b: InitStep) {
    exists c, p :: c in StepKinds(a) && p in StepKinds(b) && DependsOn(c, p)
  }

  /** The instance, surface, device and swapchain kinds come from their
      own steps only. */
  lemma RootKinds(s: InitStep, k: Kind)
    requires k in StepKinds(s)
    ensures k == InstanceK <==> s == InstanceStep
    ensures k == SurfaceK <==> s == SurfaceStep
    ensures k == DeviceK <==> s == DeviceStep
    ensures k == SwapchainK ==> s == SwapchainStep
  {
    match s
    case InstanceStep =>
    case SurfaceStep =>
    case DeviceStep =>
    case SwapchainStep =>
    case RenderFinishedStep =>
    case SyncStep =>
    case CommandStep =>
    case RenderPassStep =>
    case PipelineStep =>
    case FramebufferStep =>
    case VertexStep =>
    case IndexStep =>
  }

  /** Only the instance, the surface and the device are parents. */
  lemma NeedsRoots(a: InitStep, b: InitStep)
    ensures Needs(a, b) ==> b == InstanceStep || b == SurfaceStep || b == DeviceStep
    ensures Needs(a, b) ==> Order(b) < Order(a)
  {
    if Needs(a, b) {
      var c, p :| c in StepKinds(a) && p in StepKinds(b) && DependsOn(c, p);
      RootKinds(a, c);
      RootKinds(b, p);
    }
  }

  /** A destruction order destroys every child before its parent. */
  ghost predicate ChildrenFirst(u: seq<InitStep>) {
    forall i, j :: 0 <= i < j < |u| ==> !Needs(u[j], u[i])
  }

  /** The steps whose objects are live when step `k` fails having made
      `made` objects: every earlier step, and the framebuffers made before
      a failing one, which `create_framebuffers` does not destroy. */
  function Live(k: InitStep, made: nat): (s: set<InitStep>)
    ensures forall x :: x in s <==> Order(x) < Order(k) || (x == k == FramebufferStep && made > 0)
  {
    set x | Order(x) < Order(k) || (x == k == FramebufferStep && made > 0)
  }

  /** The steps each failure branch of `renderer_init` destroys, in the
      order it destroys them. */
  function AsWrittenUnwind(k: InitStep): (u: seq<InitStep>)
    ensures forall x :: x in u ==> Order(x) < Order(k)
  {
    match k
    case InstanceStep => []
    case SurfaceStep => [InstanceStep]
    case DeviceStep => [SurfaceStep, InstanceStep]
    case SwapchainStep => [DeviceStep, SurfaceStep, InstanceStep]
    case RenderFinishedStep => [SwapchainStep, DeviceStep, SurfaceStep, InstanceStep]
    case SyncStep => [RenderFinishedStep, SwapchainStep, DeviceStep, SurfaceStep, InstanceStep]
    case CommandStep => [SyncStep, SwapchainStep, DeviceStep, SurfaceStep, InstanceStep]
    case RenderPassStep => [CommandStep, SyncStep, SwapchainStep, DeviceStep, SurfaceStep, InstanceStep]
    case PipelineStep => [RenderPassStep, CommandStep, SyncStep, SwapchainStep, DeviceStep, SurfaceStep, InstanceStep]
    case FramebufferStep =>
      [PipelineStep, RenderPassStep, CommandStep, SyncStep, SwapchainStep, DeviceStep, SurfaceStep, InstanceStep]
    case VertexStep => []
    case IndexStep => []
  }

  /** The steps whose objects the as-written unwinding leaves live. */
  function AsWrittenLeaked(k: InitStep, made: nat): (s: set<InitStep>)
    ensures forall x :: x in s <==> x in Live(k, made) && x !in AsWrittenUnwind(k)
  {
    set x | x in Live(k, made) && x !in AsWrittenUnwind(k)
  }

  /** The as-written unwinding of `renderer_init` leaks from the command
      pool's failure on: the render-finished semaphores are never destroyed
      while the device they belong to is, a failing framebuffer step also
      leaves the framebuffers made before it, and a failing vertex or index
      buffer returns without destroying anything. Before the command pool
      nothing leaks. */
  lemma AsWrittenInitLeaks(k: InitStep, made: nat)
    ensures AsWrittenLeaked(k, made) != {} <==> Order(k) >= Order(CommandStep)
    ensures Order(CommandStep) <= Order(k) <= Order(FramebufferStep) ==>
      && RenderFinishedStep in AsWrittenLeaked(k, made)
      && DeviceStep in AsWrittenUnwind(k) && Needs(RenderFinishedStep, DeviceStep)
    ensures k == FramebufferStep && made > 0 ==> FramebufferStep in AsWrittenLeaked(k, made)
    ensures k == VertexStep || k == IndexStep ==> AsWrittenLeaked(k, made) == Live(k, made)
  {
    if Order(CommandStep) <= Order(k) {
      assert RenderFinishedStep in Live(k, made);
      assert RenderFinishedStep !in AsWrittenUnwind(k) by {
        match k
        case CommandStep =>
        case RenderPassStep =>
        case PipelineStep =>
        case FramebufferStep =>
        case VertexStep =>
        case IndexStep =>
      }
      if Order(k) <= Order(FramebufferStep) {
        assert SemaphoreK in StepKinds(RenderFinishedStep) && DeviceK in StepKinds(DeviceStep);
        assert DependsOn(SemaphoreK, DeviceK);
        assert DeviceStep in AsWrittenUnwind(k) by {
          match k
          case CommandStep =>
          case RenderPassStep =>
          case PipelineStep =>
          case FramebufferStep =>
        }
      }
      assert RenderFinishedStep in AsWrittenLeaked(k, made);
    } else {
      forall x | x in Live(k, made)
        ensures x in AsWrittenUnwind(k)
      {
        StepAtOrder(x);
      }
    }
  }

  /** The creation order names every step once. */
  lemma StepAtOrder(x: InitStep)
    ensures StepAt(Order(x)) == x
  {
  }

  /** The steps with places below `n`, the latest first. */
  function Descending(n: nat): (u: seq<InitStep>)
    requires n <= INIT_STEPS
    ensures |u| == n && forall i :: 0 <= i < n ==> Order(u[i]) == n - 1 - i
  {
    if n == 0 then [] else [StepAt(n - 1)] + Descending(n - 1)
  }

  /** The steps with places below `n` are exactly the ones listed, and
      each is destroyed after every step that needs it. */
  lemma DescendingFacts(n: nat)
    requires n <= INIT_STEPS
    ensures forall x :: x in Descending(n) <==> Order(x) < n
    ensures ChildrenFirst(Descending(n))
  {
    var u := Descending(n);
    forall x | Order(x) < n
      ensures x in u
    {
      StepAtOrder(x);
      StepAtOrder(u[n - 1 - Order(x)]);
    }
    forall i, j | 0 <= i < j < |u|
      ensures !Needs(u[j], u[i])
    {
      NeedsRoots(u[j], u[i]);
    }
  }

  /** The corrected unwinding: when step `k` fails having made `made`
      objects, destroy every live step's objects in the reverse of the
      creation order, each child before its parent. */
  function Unwind(k: InitStep, made: nat): (u: seq<InitStep>)
    ensures forall x :: x in u <==> x in Live(k, made)
    ensures forall i, j :: 0 <= i < j < |u| ==> Order(u[j]) < Order(u[i])
    ensures ChildrenFirst(u)
  {
    var n := if k == FramebufferStep && made > 0 then Order(k) + 1 else Order(k);
    DescendingFacts(n);
    StepAtOrder(FramebufferStep);
    Descending(n)
  }

  /** Before the command pool the as-written unwinding is the corrected
      one: the two revisions part only where the source leaks. */
  lemma UnwindAgreesBeforeCommand(k: InitStep, made: nat)
    requires Order(k) < Order(CommandStep)
    ensures Unwind(k, made) == AsWrittenUnwind(k)
  {
    var u := Unwind(k, made);
    assert |u| == Order(k);
    match k
    case InstanceStep =>
    case SurfaceStep =>
    case DeviceStep =>
    case SwapchainStep =>
    case RenderFinishedStep =>
    case SyncStep =>
  }

  /** The order of `renderer_shutdown`: the quad's buffers, the
      framebuffers, the pipeline, the render pass, the command pool, the
      frame slots, the semaphores, the swapchain, the device, the surface
      and the instance. */
  const SHUTDOWN_ORDER: seq<InitStep> :=
    [IndexStep, VertexStep, FramebufferStep, PipelineStep, RenderPassStep, CommandStep,
     SyncStep, RenderFinishedStep, SwapchainStep, DeviceStep, SurfaceStep, InstanceStep]

  /** The shutdown destroys every step's objects in the reverse of the
      creation order, so each child before its parent. */
  lemma ShutdownChildrenFirst()
    ensures forall s: InitStep :: s in SHUTDOWN_ORDER
    ensures ChildrenFirst(SHUTDOWN_ORDER)
  {
    assert SHUTDOWN_ORDER == Descending(INIT_STEPS);
    DescendingFacts(INIT_STEPS);
  }
}
