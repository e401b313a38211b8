/** The state of `struct Renderer` that the swapchain, frame and lifetime
    code share. Every Vulkan handle the renderer owns lives in the handle
    table `t`, checked against the device's books `g`; the record keeps the
    rest: the queue families, the swapchain's image count, format and extent,
    the frame slot, the framebuffer count, the fences borrowed per image, the
    uniform mappings, the mesh count and index counts, and the window and
    recreation flags. */
module RendererInternal {
  import opened Common
  import opened Ledger
  import Device
  import Swapchain
  import Sync

  datatype Renderer = Renderer(
    t: Table, g: Gpu,
    fams: Device.QueueFamilyIndices,
    swapchain: Swapchain.SwapchainState,
    sync: Sync.SyncState,
    framebufferCount: nat,
    imagesInFlight: seq<nat>,   // copies of in-flight fence handles, not owned
    uniformMapped: seq<bool>,   // `camera_uniform_mapped[i] != NULL`
    meshCount: nat,
    indexCounts: map<nat, nat>, // `meshes[i].index_count`
    hasWindow: bool,
    needsRecreation: bool)

  /** The framebuffer fields of the first `n` images. */
  function FramebufferFields(n: nat): (r: seq<Field>)
    ensures |r| == n && Distinct(r)
    ensures forall i: nat :: 0 <= i < n ==> r[i] == FramebufferF(i) && KindOf(r[i]) == FramebufferK
  {
    seq(n, (i: int) requires 0 <= i < n => FramebufferF(i))
  }

  /** The render-finished semaphore fields of the first `n` images. */
  function RenderFinishedFields(n: nat): (r: seq<Field>)
    ensures |r| == n && Distinct(r)
    ensures forall i: nat :: 0 <= i < n ==> r[i] == RenderFinishedF(i) && KindOf(r[i]) == SemaphoreK
  {
    seq(n, (i: int) requires 0 <= i < n => RenderFinishedF(i))
  }

  /** The `render_finished` array `memset` clears. */
  const RENDER_FINISHED_SET: set<Field> := set i | 0 <= i < MAX_SWAPCHAIN_IMAGES :: RenderFinishedF(i)

  lemma RenderFinishedSetFacts()
    ensures forall f :: f in RENDER_FINISHED_SET <==> f.RenderFinishedF? && f.image < MAX_SWAPCHAIN_IMAGES
  {
    forall f: Field | f.RenderFinishedF? && f.image < MAX_SWAPCHAIN_IMAGES
      ensures f in RENDER_FINISHED_SET
    {
      assert f == RenderFinishedF(f.image);
    }
  }

  /** The ownership invariant of the swapchain-dependent state: the table
      tracks the device's live objects, the swapchain context is consistent
      and has no retired swapchain pending, no framebuffer lies beyond the
      framebuffer count and no render-finished semaphore beyond the image
      count, and the fixed-size arrays have their sizes. */
  ghost predicate Owned(r: Renderer) {
    && r.g.Valid() && Tracks(r.t, r.g)
    && Swapchain.Consistent(r.t, r.swapchain) && Get(r.t, RetiredSwapchainF) == 0
    && r.framebufferCount <= MAX_SWAPCHAIN_IMAGES
    && (forall i: nat :: r.framebufferCount <= i ==> Get(r.t, FramebufferF(i)) == 0)
    && (forall i: nat :: r.swapchain.imageCount <= i ==> Get(r.t, RenderFinishedF(i)) == 0)
    && |r.imagesInFlight| == MAX_SWAPCHAIN_IMAGES && r.sync.Valid()
    && |r.uniformMapped| == MAX_FRAMES_IN_FLIGHT
  }

  /** The device and the surface every swapchain-dependent object needs. */
  predicate Parents(r: Renderer) {
    Get(r.t, DeviceF) != 0 && Get(r.t, SurfaceF) != 0
  }
}
