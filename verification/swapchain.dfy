/** The swapchain of `renderer/vk_swapchain.c`: the negotiation of surface
    format, present mode, extent, image count and sharing mode from what the
    surface supports, and the creation, destruction and recreation of the
    swapchain and its image views.

    The surface queries are inputs (`Support`); so are the result of the
    swapchain creation, the image count the driver reports and the results
    of the image-view creations. */
module Swapchain {
  import opened Common
  import opened Ledger
  import Macros
  import Device

  // ---------------------------------------------------------------------
  // Negotiation

  /** `VK_FORMAT_B8G8R8A8_SRGB` and `VK_COLOR_SPACE_SRGB_NONLINEAR_KHR`. */
  const FORMAT_B8G8R8A8_SRGB: nat := 50
  const COLOR_SPACE_SRGB_NONLINEAR: nat := 0

  /** `VkSurfaceFormatKHR`. */
  datatype SurfaceFormat = SurfaceFormat(format: nat, colorSpace: nat)

  const PREFERRED_FORMAT := SurfaceFormat(FORMAT_B8G8R8A8_SRGB, COLOR_SPACE_SRGB_NONLINEAR)

  /** The loop of `choose_surface_format` from index `i` on: the first
      entry with the preferred format and colour space. */
  function PreferredFrom(formats: seq<SurfaceFormat>, i: nat): (r: Option<SurfaceFormat>)
    requires i <= |formats|
    ensures r.Some? <==> exists j :: i <= j < |formats| && formats[j] == PREFERRED_FORMAT
    ensures r.Some? ==> r.value == PREFERRED_FORMAT
    decreases |formats| - i
  {
    if i == |formats| then None
    else if formats[i].format == FORMAT_B8G8R8A8_SRGB && formats[i].colorSpace == COLOR_SPACE_SRGB_NONLINEAR then
      Some(formats[i])
    else PreferredFrom(formats, i + 1)
  }

  /** `choose_surface_format`: the preferred sRGB format when the surface
      offers it, else the first format offered. The fallback reads
      `formats[0]` unconditionally, so at least one format is needed. */
  function ChooseSurfaceFormat(formats: seq<SurfaceFormat>): (r: SurfaceFormat)
    requires |formats| >= 1
    ensures PREFERRED_FORMAT in formats ==> r == PREFERRED_FORMAT
    ensures PREFERRED_FORMAT !in formats ==> r == formats[0]
  {
    match PreferredFrom(formats, 0)
    case Some(f) => f
    case None => formats[0]
  }

  /** `VK_PRESENT_MODE_*_KHR`. */
  const PRESENT_MODE_IMMEDIATE: nat := 0
  const PRESENT_MODE_MAILBOX: nat := 1
  const PRESENT_MODE_FIFO: nat := 2
  const PRESENT_MODE_FIFO_RELAXED: nat := 3

  /** The loop of `choose_present_mode` from index `i` on. */
  function PresentModeFrom(modes: seq<nat>, i: nat): (r: nat)
    requires i <= |modes|
    ensures r == PRESENT_MODE_MAILBOX <==> exists j :: i <= j < |modes| && modes[j] == PRESENT_MODE_MAILBOX
    ensures r != PRESENT_MODE_MAILBOX ==> r == PRESENT_MODE_FIFO
    decreases |modes| - i
  {
    if i == |modes| then PRESENT_MODE_FIFO
    else if modes[i] == PRESENT_MODE_MAILBOX then modes[i]
    else PresentModeFrom(modes, i + 1)
  }

  /** `choose_present_mode`: mailbox when offered, otherwise FIFO, which
      every surface supports. */
  function ChoosePresentMode(modes: seq<nat>): (r: nat)
    ensures r == PRESENT_MODE_MAILBOX <==> PRESENT_MODE_MAILBOX in modes
    ensures r != PRESENT_MODE_MAILBOX ==> r == PRESENT_MODE_FIFO
  {
    PresentModeFrom(modes, 0)
  }

  /** `VkExtent2D`. */
  datatype Extent = Extent(width: u32, height: u32)

  /** The fields of `VkSurfaceCapabilitiesKHR` the negotiation reads. */
  datatype Capabilities = Capabilities(
    minImageCount: u32, maxImageCount: u32,
    currentExtent: Extent, minImageExtent: Extent, maxImageExtent: Extent)

  /** A clamped component: the request itself when it is in range, the
      nearer bound when it is outside, and `lo` when the range is empty. */
  predicate ClampedTo(x: int, request: int, lo: int, hi: int) {
    && x >= lo
    && (lo <= hi ==> x <= hi)
    && (lo <= request <= hi ==> x == request)
    && (request < lo ==> x == lo)
    && (lo <= hi && hi < request ==> x == hi)
    && (hi < lo ==> x == lo)
  }

  /** `choose_extent`. A current width of `0xFFFFFFFF` is the surface's way
      of saying that the swapchain decides the size (section 34.5,
      "Surface Queries", of the Vulkan specification); then the requested
      size is clamped to the allowed range, otherwise the current extent is
      used as it is. */
  function ChooseExtent(caps: Capabilities, width: u32, height: u32): (r: Extent)
    ensures caps.currentExtent.width != U32_MAX ==> r == caps.currentExtent
    ensures caps.currentExtent.width == U32_MAX ==>
      && ClampedTo(r.width, width, caps.minImageExtent.width, caps.maxImageExtent.width)
      && ClampedTo(r.height, height, caps.minImageExtent.height, caps.maxImageExtent.height)
  {
    if caps.currentExtent.width != U32_MAX then caps.currentExtent
    else
      Extent(Macros.Clamp(width, caps.minImageExtent.width, caps.maxImageExtent.width),
             Macros.Clamp(height, caps.minImageExtent.height, caps.maxImageExtent.height))
  }

  /** The image count of `vk_swapchain_create`: one more than the minimum
      (in 32-bit arithmetic), capped by the maximum when there is one and by
      the capacity of the image arrays. */
  function ImageCount(caps: Capabilities): (r: u32)
    ensures r <= MAX_SWAPCHAIN_IMAGES
    ensures caps.maxImageCount > 0 ==> r <= caps.maxImageCount
    ensures (caps.minImageCount <= MAX_SWAPCHAIN_IMAGES
             && (caps.maxImageCount == 0 || caps.maxImageCount >= caps.minImageCount)) ==> r >= caps.minImageCount
    ensures r == 0 <==> caps.minImageCount == U32_MAX
    ensures var c := (caps.minImageCount + 1) % (U32_MAX + 1);
      && r <= c
      && (r == c || r == MAX_SWAPCHAIN_IMAGES || (caps.maxImageCount > 0 && r == caps.maxImageCount))
  {
    var c := (caps.minImageCount + 1) % (U32_MAX + 1);
    var c1 := if caps.maxImageCount > 0 && c > caps.maxImageCount then caps.maxImageCount else c;
    if c1 > MAX_SWAPCHAIN_IMAGES then MAX_SWAPCHAIN_IMAGES else c1
  }

  /** `VkSharingMode`, with the family list of the concurrent mode. */
  datatype SharingMode = Exclusive | Concurrent(families: seq<nat>)

  /** The sharing mode of `vk_swapchain_create`: concurrent over both
      families when graphics and presentation use different families. */
  function Sharing(ix: Device.QueueFamilyIndices): (r: SharingMode)
    ensures r.Concurrent? <==> ix.graphicsFamily != ix.presentFamily
    ensures r.Concurrent? ==> r.families == [ix.graphicsFamily, ix.presentFamily]
  {
    if ix.graphicsFamily != ix.presentFamily then Concurrent([ix.graphicsFamily, ix.presentFamily])
    else Exclusive
  }

  /** The swapchain shares its images between exactly the families the
      device created queues for. */
  lemma SharingMatchesQueues(ix: Device.QueueFamilyIndices)
    ensures Sharing(ix).Concurrent? <==> |Device.QueueCreateFamilies(ix)| == 2
    ensures Sharing(ix).Concurrent? ==> Sharing(ix).families == Device.QueueCreateFamilies(ix)
    ensures Sharing(ix).Exclusive? ==> Device.QueueCreateFamilies(ix) == [ix.graphicsFamily]
  {
  }

  /** What the surface queries of `vk_swapchain_query_support` return. */
  datatype Support = Support(caps: Capabilities, formats: seq<SurfaceFormat>, presentModes: seq<nat>)

  /** The negotiated parts of `VkSwapchainCreateInfoKHR`. */
  datatype CreateInfo = CreateInfo(
    minImageCount: u32, format: SurfaceFormat, extent: Extent, presentMode: nat,
    sharing: SharingMode, oldSwapchain: nat)

  function Negotiate(support: Support, fams: Device.QueueFamilyIndices, width: u32, height: u32, retired: nat): (r: CreateInfo)
    requires |support.formats| >= 1
    ensures r.format in support.formats && r.oldSwapchain == retired
  {
    CreateInfo(ImageCount(support.caps), ChooseSurfaceFormat(support.formats),
               ChooseExtent(support.caps, width, height), ChoosePresentMode(support.presentModes),
               Sharing(fams), retired)
  }

  // ---------------------------------------------------------------------
  // The context

  /** The non-handle part of `VkSwapchainContext`. */
  datatype SwapchainState = SwapchainState(imageCount: nat, format: nat, extent: Extent)

  const ZERO_STATE := SwapchainState(0, 0, Extent(0, 0))

  /** The image-view fields of the first `n` images. */
  function ViewFields(n: nat): (r: seq<Field>)
    ensures |r| == n && Distinct(r)
    ensures forall i :: 0 <= i < n ==> r[i] == ImageViewF(i) && KindOf(r[i]) == ImageViewK
  {
    seq(n, (i: int) requires 0 <= i < n => ImageViewF(i))
  }

  /** The handle fields `memset` clears in the context. */
  const CONTEXT_SET: set<Field> := {SwapchainF} + set i | 0 <= i < MAX_SWAPCHAIN_IMAGES :: ImageViewF(i)

  lemma ContextSetFacts()
    ensures forall f :: f in CONTEXT_SET <==> f == SwapchainF || (f.ImageViewF? && f.image < MAX_SWAPCHAIN_IMAGES)
  {
    forall f: Field | f.ImageViewF? && f.image < MAX_SWAPCHAIN_IMAGES
      ensures f in CONTEXT_SET
    {
      assert f == ImageViewF(f.image);
    }
  }

  lemma OutsideContext()
    ensures SwapchainF in CONTEXT_SET
    ensures DeviceF !in CONTEXT_SET && SurfaceF !in CONTEXT_SET && RetiredSwapchainF !in CONTEXT_SET
  {
    ContextSetFacts();
  }

  /** The image count is within the arrays and the views past it are
      null. */
  ghost predicate Consistent(t: Table, s: SwapchainState) {
    && s.imageCount <= MAX_SWAPCHAIN_IMAGES
    && forall i :: s.imageCount <= i < MAX_SWAPCHAIN_IMAGES ==> Get(t, ImageViewF(i)) == 0
  }

  /** What the environment answers during `vk_swapchain_create`. */
  datatype Driver = Driver(support: Support, createRes: VkResult, reported: u32, viewResults: seq<VkResult>)

  /** The outcome of a creation: handle table, device, context state,
      result, and the create-info passed to the driver. */
  datatype Made = Made(t: Table, g: Gpu, state: SwapchainState, res: VkResult, info: CreateInfo)

  /** The start of `vk_swapchain_create`: the context is zeroed and the
      swapchain created. */
  function Begin(t: Table, g: Gpu, res: VkResult): (r: (Table, Gpu))
    requires g.Valid()
    ensures r.1.Valid()
    ensures Get(r.0, SwapchainF) != 0 <==> res == VkSuccess
    ensures forall i :: 0 <= i < MAX_SWAPCHAIN_IMAGES ==> Get(r.0, ImageViewF(i)) == 0
    ensures forall f :: f !in CONTEXT_SET ==> Get(r.0, f) == Get(t, f)
  {
    ContextSetFacts();
    Make(Zero(t, CONTEXT_SET), g, SwapchainF, res)
  }

  /** The loop of `create_image_views` over the first `n` images. */
  function Views(t: Table, g: Gpu, n: nat, results: seq<VkResult>): (r: Batch)
    requires g.Valid() && n <= MAX_SWAPCHAIN_IMAGES
    ensures r.g.Valid() && r.made <= n
    ensures r.res == VkSuccess <==> r.made == n
    ensures r.made < n ==> r.res == ResultAt(results, r.made)
    ensures Get(r.t, SwapchainF) == Get(t, SwapchainF)
    ensures forall i :: 0 <= i < r.made ==> ResultAt(results, i) == VkSuccess
    ensures forall i :: n <= i || r.made < i ==> Get(r.t, ImageViewF(i)) == Get(t, ImageViewF(i))
    ensures r.made < n ==> Get(r.t, ImageViewF(r.made)) == 0
    ensures forall i :: 0 <= i < r.made ==> Get(r.t, ImageViewF(i)) != 0
    ensures forall f :: f !in CONTEXT_SET ==> Get(r.t, f) == Get(t, f)
  {
    ContextSetFacts();
    var fs := ViewFields(n);
    var b := MakeSeq(t, g, fs, results);
    assert SwapchainF !in fs;
    assert forall i :: n <= i ==> ImageViewF(i) !in fs;
    assert forall i :: b.made < i < n ==> ImageViewF(i) == fs[i];
    b
  }

  /** `vk_swapchain_create` up to the image-view loop: zeroes the context,
      creates the swapchain, records the image count (capped at the array
      capacity), format and extent, and creates one view per image,
      stopping at the first failure. The failure cleanup differs between
      the code as written and the corrected version below. */
  function Attempt(t: Table, g: Gpu, fams: Device.QueueFamilyIndices, width: u32, height: u32, retired: nat, d: Driver): (r: Made)
    requires g.Valid() && |d.support.formats| >= 1
    ensures r.g.Valid() && r.info == Negotiate(d.support, fams, width, height, retired)
    ensures Get(r.t, SwapchainF) != 0 <==> d.createRes == VkSuccess
    ensures d.createRes != VkSuccess ==> r.res == d.createRes && r.state == ZERO_STATE
    ensures d.createRes == VkSuccess ==>
      && r.state.format == r.info.format.format && r.state.extent == r.info.extent
      && r.state.imageCount <= MAX_SWAPCHAIN_IMAGES
      && (d.reported <= MAX_SWAPCHAIN_IMAGES ==> r.state.imageCount == d.reported)
    ensures Consistent(r.t, r.state)
    ensures r.res == VkSuccess ==> forall i :: 0 <= i < r.state.imageCount ==> Get(r.t, ImageViewF(i)) != 0
    ensures forall f :: f !in CONTEXT_SET ==> Get(r.t, f) == Get(t, f)
  {
    var info := Negotiate(d.support, fams, width, height, retired);
    var p := Begin(t, g, d.createRes);
    if d.createRes != VkSuccess then
      Made(p.0, p.1, ZERO_STATE, d.createRes, info)
    else
      var n := if d.reported > MAX_SWAPCHAIN_IMAGES then MAX_SWAPCHAIN_IMAGES else d.reported;
      var b := Views(p.0, p.1, n, d.viewResults);
      Made(b.t, b.g, SwapchainState(n, info.format.format, info.extent), b.res, info)
  }

  /** `vk_swapchain_create` as written: when an image view fails, the
      swapchain is destroyed but its handle stays in the context. */
  function AsWrittenCreate(t: Table, g: Gpu, fams: Device.QueueFamilyIndices, width: u32, height: u32, retired: nat, d: Driver): (r: Made)
    requires g.Valid() && |d.support.formats| >= 1
    ensures r.g.Valid() && r.t == Attempt(t, g, fams, width, height, retired, d).t
    ensures d.createRes == VkSuccess && r.res != VkSuccess ==>
      Get(r.t, SwapchainF) != 0 && Get(r.t, SwapchainF) !in r.g.live
  {
    var a := Attempt(t, g, fams, width, height, retired, d);
    if a.res != VkSuccess && Get(a.t, SwapchainF) != 0 then
      OwnerOfAttempt(t, g, fams, width, height, retired, d);
      a.(g := Free(a.t, a.g, SwapchainF))
    else a
  }

  /** `vk_swapchain_create` with the failure cleanup corrected: the
      destroyed swapchain's handle is cleared as well. */
  function Create(t: Table, g: Gpu, fams: Device.QueueFamilyIndices, width: u32, height: u32, retired: nat, d: Driver): (r: Made)
    requires g.Valid() && |d.support.formats| >= 1
    ensures r.g.Valid() && r.info == Negotiate(d.support, fams, width, height, retired)
    ensures r.res == VkSuccess <==> Get(r.t, SwapchainF) != 0
    ensures d.createRes != VkSuccess ==> r.res == d.createRes && r.state == ZERO_STATE
    ensures d.createRes == VkSuccess ==>
      && r.state.imageCount <= MAX_SWAPCHAIN_IMAGES
      && (d.reported <= MAX_SWAPCHAIN_IMAGES ==> r.state.imageCount == d.reported)
    ensures Consistent(r.t, r.state)
    ensures r.res == VkSuccess ==> forall i :: 0 <= i < r.state.imageCount ==> Get(r.t, ImageViewF(i)) != 0
    ensures forall f :: f !in CONTEXT_SET ==> Get(r.t, f) == Get(t, f)
  {
    var a := Attempt(t, g, fams, width, height, retired, d);
    if a.res != VkSuccess && Get(a.t, SwapchainF) != 0 then
      var q := Release(a.t, a.g, SwapchainF);
      a.(t := q.0, g := q.1)
    else a
  }

  /** The swapchain handle an attempt leaves in the context is live. */
  lemma OwnerOfAttempt(t: Table, g: Gpu, fams: Device.QueueFamilyIndices, width: u32, height: u32, retired: nat, d: Driver)
    requires g.Valid() && |d.support.formats| >= 1
    ensures var a := Attempt(t, g, fams, width, height, retired, d);
      Get(a.t, SwapchainF) != 0 ==> Get(a.t, SwapchainF) in a.g.live
  {
    var p := Begin(t, g, d.createRes);
    if d.createRes == VkSuccess {
      var n := if d.reported > MAX_SWAPCHAIN_IMAGES then MAX_SWAPCHAIN_IMAGES else d.reported;
      MakeSeqKeepsLive(p.0, p.1, ViewFields(n), d.viewResults, Get(p.0, SwapchainF));
      assert Get(p.0, SwapchainF) in p.1.live;
    }
  }

  /** `vk_swapchain_destroy`: destroys the views of the recorded images and
      the swapchain, then zeroes the context. */
  function Destroy(t: Table, g: Gpu, s: SwapchainState): (r: (Table, Gpu, SwapchainState))
    requires g.Valid() && s.imageCount <= MAX_SWAPCHAIN_IMAGES
    ensures r.1.Valid() && r.2 == ZERO_STATE
    ensures forall f :: f in CONTEXT_SET ==> Get(r.0, f) == 0
    ensures forall f :: f !in CONTEXT_SET ==> Get(r.0, f) == Get(t, f)
    ensures (forall f :: f in CONTEXT_SET ==> Get(t, f) == 0) ==> r.1 == g
  {
    ContextSetFacts();
    var p := ReleaseSeq(t, g, ViewFields(s.imageCount));
    assert forall f :: f !in CONTEXT_SET ==> f !in ViewFields(s.imageCount);
    var q := Release(p.0, p.1, SwapchainF);
    (Zero(q.0, CONTEXT_SET), q.1, ZERO_STATE)
  }

  /** Destroying twice is the same as destroying once. */
  lemma DestroyIdempotent(t: Table, g: Gpu, s: SwapchainState)
    requires g.Valid() && s.imageCount <= MAX_SWAPCHAIN_IMAGES
    ensures var (t1, g1, s1) := Destroy(t, g, s);
      var (t2, g2, s2) := Destroy(t1, g1, s1);
      g2 == g1 && Same(t2, t1) && s2 == s1
  {
  }

  // ---------------------------------------------------------------------
  // Ownership

  lemma BeginKeeps(t: Table, g: Gpu, res: VkResult)
    requires g.Valid() && Tracks(t, g)
    requires forall f :: f in CONTEXT_SET ==> Get(t, f) == 0
    ensures var p := Begin(t, g, res); Tracks(p.0, p.1)
    ensures Get(t, DeviceF) != 0 && Get(t, SurfaceF) != 0 ==> Begin(t, g, res).1.faults == g.faults
  {
    ContextSetFacts();
    var t0 := Zero(t, CONTEXT_SET);
    ZeroOfNulls(t, g, CONTEXT_SET);
    MakeKeeps(t0, g, SwapchainF, res);
    DeviceChildParents(t0, SwapchainK);
  }

  lemma ViewsKeep(t: Table, g: Gpu, n: nat, results: seq<VkResult>)
    requires g.Valid() && Tracks(t, g) && n <= MAX_SWAPCHAIN_IMAGES
    requires forall i :: 0 <= i < n ==> Get(t, ImageViewF(i)) == 0
    ensures var b := Views(t, g, n, results); Tracks(b.t, b.g)
    ensures Get(t, DeviceF) != 0 ==> Views(t, g, n, results).g.faults == g.faults
  {
    MakeSeqKeeps(t, g, ViewFields(n), results);
  }

  /** Creating into an empty context keeps the ownership invariant, and
      with the device and surface recorded it is free of faults, whatever
      fails along the way. */
  lemma CreateKeeps(t: Table, g: Gpu, fams: Device.QueueFamilyIndices, width: u32, height: u32, retired: nat, d: Driver)
    requires g.Valid() && Tracks(t, g) && |d.support.formats| >= 1
    requires forall f :: f in CONTEXT_SET ==> Get(t, f) == 0
    ensures var c := Create(t, g, fams, width, height, retired, d); Tracks(c.t, c.g)
    ensures Get(t, DeviceF) != 0 && Get(t, SurfaceF) != 0 ==>
      Create(t, g, fams, width, height, retired, d).g.faults == g.faults
  {
    CreateSteps(t, g, fams, width, height, retired, d);
    var held := Get(t, DeviceF) != 0 && Get(t, SurfaceF) != 0;
    var p := Begin(t, g, d.createRes);
    assert Tracks(p.0, p.1) && (held ==> p.1.faults == g.faults) && Get(p.0, DeviceF) == Get(t, DeviceF) by {
      BeginKeeps(t, g, d.createRes);
    }
    if d.createRes == VkSuccess {
      var n := if d.reported > MAX_SWAPCHAIN_IMAGES then MAX_SWAPCHAIN_IMAGES else d.reported;
      ViewsThenCleanupKeep(p.0, p.1, n, d.viewResults);
    }
  }

  /** The image-view loop and the cleanup after it keep the ownership
      invariant and are free of faults with the device recorded. */
  lemma ViewsThenCleanupKeep(t: Table, g: Gpu, n: nat, results: seq<VkResult>)
    requires g.Valid() && Tracks(t, g) && n <= MAX_SWAPCHAIN_IMAGES
    requires forall i :: 0 <= i < n ==> Get(t, ImageViewF(i)) == 0
    ensures var b := Views(t, g, n, results);
      var q := if b.res == VkSuccess then (b.t, b.g) else Release(b.t, b.g, SwapchainF);
      Tracks(q.0, q.1) && (Get(t, DeviceF) != 0 ==> q.1.faults == g.faults)
  {
    var b := Views(t, g, n, results);
    ViewsKeep(t, g, n, results);
    ReleaseKeeps(b.t, b.g, SwapchainF);
    DeviceChildHasNoChildren(b.t, SwapchainK);
  }

  /** The three ways `vk_swapchain_create` can end. */
  lemma CreateSteps(t: Table, g: Gpu, fams: Device.QueueFamilyIndices, width: u32, height: u32, retired: nat, d: Driver)
    requires g.Valid() && |d.support.formats| >= 1
    ensures var c := Create(t, g, fams, width, height, retired, d);
      var p := Begin(t, g, d.createRes);
      var n := if d.reported > MAX_SWAPCHAIN_IMAGES then MAX_SWAPCHAIN_IMAGES else d.reported;
      var b := Views(p.0, p.1, n, d.viewResults);
      && (d.createRes != VkSuccess ==> c.t == p.0 && c.g == p.1)
      && (d.createRes == VkSuccess ==>
            var q := if b.res == VkSuccess then (b.t, b.g) else Release(b.t, b.g, SwapchainF);
            c.t == q.0 && c.g == q.1)
  {
  }

  /** Destroying a consistent context keeps the ownership invariant and is
      free of faults. */
  lemma DestroyKeeps(t: Table, g: Gpu, s: SwapchainState)
    requires g.Valid() && Tracks(t, g) && Consistent(t, s)
    ensures var r := Destroy(t, g, s); Tracks(r.0, r.1) && r.1.faults == g.faults
  {
    ContextSetFacts();
    var fs := ViewFields(s.imageCount);
    var p := ReleaseSeq(t, g, fs);
    ReleaseSeqKeeps(t, g, fs);
    var q := Release(p.0, p.1, SwapchainF);
    ReleaseKeeps(p.0, p.1, SwapchainF);
    forall f | f in CONTEXT_SET
      ensures Get(q.0, f) == 0
    {
      if f != SwapchainF && f.image >= s.imageCount {
        assert f !in fs;
      }
    }
    ZeroOfNulls(q.0, q.1, CONTEXT_SET);
  }

  /** With the device and surface live, creating a swapchain into an empty
      context and destroying it again leaves the live objects and the
      handle table as they were and raises no fault, whatever failed in
      between. */
  lemma CreateDestroyBalanced(t: Table, g: Gpu, fams: Device.QueueFamilyIndices, width: u32, height: u32, retired: nat, d: Driver)
    requires g.Valid() && Tracks(t, g) && |d.support.formats| >= 1
    requires forall f :: f in CONTEXT_SET ==> Get(t, f) == 0
    requires Get(t, DeviceF) != 0 && Get(t, SurfaceF) != 0
    ensures var c := Create(t, g, fams, width, height, retired, d);
      var (t2, g2, _) := Destroy(c.t, c.g, c.state);
      g2.live == g.live && g2.faults == g.faults && Same(t2, t)
  {
    var c := Create(t, g, fams, width, height, retired, d);
    assert Tracks(c.t, c.g) && c.g.faults == g.faults by {
      CreateKeeps(t, g, fams, width, height, retired, d);
    }
    var r := Destroy(c.t, c.g, c.state);
    assert Tracks(r.0, r.1) && r.1.faults == g.faults by {
      DestroyKeeps(c.t, c.g, c.state);
    }
    forall f
      ensures Get(r.0, f) == Get(t, f)
    {
      if f !in CONTEXT_SET {
        assert Get(r.0, f) == Get(c.t, f);
      }
    }
    SameTableSameLive(r.0, r.1, t, g);
  }

  // ---------------------------------------------------------------------
  // The failed image view, as written

  /** When the first image view fails, the context `vk_swapchain_create`
      leaves behind still names the swapchain it destroyed, so the
      `vk_swapchain_destroy` that follows destroys it a second time. */
  lemma AsWrittenDestroyFaults(t: Table, g: Gpu, fams: Device.QueueFamilyIndices, width: u32, height: u32, retired: nat, d: Driver)
    requires g.Valid() && |d.support.formats| >= 1
    requires d.createRes == VkSuccess && d.reported >= 1 && ResultAt(d.viewResults, 0) != VkSuccess
    ensures var c := AsWrittenCreate(t, g, fams, width, height, retired, d);
      && c.res != VkSuccess && Destroy(c.t, c.g, c.state).1.faults == c.g.faults + 1
      && c.state.imageCount <= MAX_SWAPCHAIN_IMAGES
      && (forall i :: 0 <= i < c.state.imageCount ==> Get(c.t, ImageViewF(i)) == 0)
      && Get(c.t, SwapchainF) != 0 && Get(c.t, SwapchainF) !in c.g.live
  {
    var a := Attempt(t, g, fams, width, height, retired, d);
    var c := AsWrittenCreate(t, g, fams, width, height, retired, d);
    var p := Begin(t, g, d.createRes);
    var n := if d.reported > MAX_SWAPCHAIN_IMAGES then MAX_SWAPCHAIN_IMAGES else d.reported;
    var b := Views(p.0, p.1, n, d.viewResults);
    assert b.made == 0;
    assert a.t == b.t && a.state.imageCount == n && a.res != VkSuccess;
    forall i | 0 <= i < n
      ensures Get(b.t, ImageViewF(i)) == 0
    {
      if i > 0 { assert Get(b.t, ImageViewF(i)) == Get(p.0, ImageViewF(i)); }
    }
    assert c.t == b.t;
    DestroyDanglingFaults(c.t, c.g, c.state);
  }

  /** Destroying a context whose views are null and whose swapchain handle
      is no longer live destroys that handle again: one fault. */
  lemma DestroyDanglingFaults(t: Table, g: Gpu, s: SwapchainState)
    requires g.Valid() && s.imageCount <= MAX_SWAPCHAIN_IMAGES
    requires forall i :: 0 <= i < s.imageCount ==> Get(t, ImageViewF(i)) == 0
    requires Get(t, SwapchainF) != 0 && Get(t, SwapchainF) !in g.live
    ensures Destroy(t, g, s).1.faults == g.faults + 1
  {
    var fs := ViewFields(s.imageCount);
    assert forall i :: 0 <= i < |fs| ==> Get(t, fs[i]) == 0;
    assert ReleaseSeq(t, g, fs).1 == g;
  }

  // ---------------------------------------------------------------------
  // Recreation

  /** `vk_swapchain_recreate`: keeps the old swapchain aside, destroys and
      nulls the old views, creates the new swapchain passing the old one
      along, and destroys the old one afterwards whatever the creation
      returned. The local copy of the old handle is `RetiredSwapchainF`;
      the context's own copy is cleared by the `memset` at the start of the
      creation. */
  function Recreate(t: Table, g: Gpu, s: SwapchainState, fams: Device.QueueFamilyIndices, width: u32, height: u32, d: Driver): (r: Made)
    requires g.Valid() && s.imageCount <= MAX_SWAPCHAIN_IMAGES && |d.support.formats| >= 1
    ensures r.g.Valid() && r.info.oldSwapchain == Get(t, SwapchainF)
    ensures r.res == VkSuccess <==> Get(r.t, SwapchainF) != 0
    ensures Get(r.t, RetiredSwapchainF) == 0
    ensures forall f :: f !in CONTEXT_SET && f != RetiredSwapchainF ==> Get(r.t, f) == Get(t, f)
  {
    var p := Retire(t, g, s);
    var c := Create(p.0, p.1, fams, width, height, Get(t, SwapchainF), d);
    var q := Release(c.t, c.g, RetiredSwapchainF);
    Made(q.0, q.1, c.state, c.res, c.info)
  }

  /** `vk_swapchain_recreate` over the as-written `vk_swapchain_create`:
      a new swapchain whose image view fails stays named by the context
      after it was destroyed. */
  function AsWrittenRecreate(t: Table, g: Gpu, s: SwapchainState, fams: Device.QueueFamilyIndices, width: u32, height: u32, d: Driver): (r: Made)
    requires g.Valid() && s.imageCount <= MAX_SWAPCHAIN_IMAGES && |d.support.formats| >= 1
    ensures r.g.Valid() && r.info.oldSwapchain == Get(t, SwapchainF)
    ensures Get(r.t, RetiredSwapchainF) == 0
    ensures d.createRes == VkSuccess && r.res != VkSuccess ==>
      Get(r.t, SwapchainF) != 0 && Get(r.t, SwapchainF) !in r.g.live
  {
    var p := Retire(t, g, s);
    var c := AsWrittenCreate(p.0, p.1, fams, width, height, Get(t, SwapchainF), d);
    var q := Release(c.t, c.g, RetiredSwapchainF);
    Made(q.0, q.1, c.state, c.res, c.info)
  }

  /** A resize whose new swapchain's first image view fails: the context
      the as-written recreation leaves behind names the destroyed
      swapchain, so the next `vk_swapchain_destroy` destroys it again. */
  lemma AsWrittenRecreateDestroyFaults(t: Table, g: Gpu, s: SwapchainState, fams: Device.QueueFamilyIndices, width: u32, height: u32, d: Driver)
    requires g.Valid() && s.imageCount <= MAX_SWAPCHAIN_IMAGES && |d.support.formats| >= 1
    requires d.createRes == VkSuccess && d.reported >= 1 && ResultAt(d.viewResults, 0) != VkSuccess
    ensures var c := AsWrittenRecreate(t, g, s, fams, width, height, d);
      c.res != VkSuccess && Destroy(c.t, c.g, c.state).1.faults == c.g.faults + 1
  {
    var p := Retire(t, g, s);
    var c := AsWrittenCreate(p.0, p.1, fams, width, height, Get(t, SwapchainF), d);
    AsWrittenDestroyFaults(p.0, p.1, fams, width, height, Get(t, SwapchainF), d);
    RetiredReleaseKeepsDangling(c.t, c.g, c.state);
  }

  /** Releasing the retired copy leaves a dangling swapchain with null
      views dangling, so destroying the context still faults once. */
  lemma RetiredReleaseKeepsDangling(t: Table, g: Gpu, s: SwapchainState)
    requires g.Valid() && s.imageCount <= MAX_SWAPCHAIN_IMAGES
    requires forall i :: 0 <= i < s.imageCount ==> Get(t, ImageViewF(i)) == 0
    requires Get(t, SwapchainF) != 0 && Get(t, SwapchainF) !in g.live
    ensures var q := Release(t, g, RetiredSwapchainF);
      Destroy(q.0, q.1, s).1.faults == q.1.faults + 1
  {
    var q := Release(t, g, RetiredSwapchainF);
    assert q.1.live.Keys <= g.live.Keys;
    DestroyDanglingFaults(q.0, q.1, s);
  }

  /** The first half of `vk_swapchain_recreate`: the old handle is kept
      aside and the old views are destroyed and nulled. */
  function Retire(t: Table, g: Gpu, s: SwapchainState): (r: (Table, Gpu))
    requires g.Valid() && s.imageCount <= MAX_SWAPCHAIN_IMAGES
    ensures r.1 == ReleaseSeq(t, g, ViewFields(s.imageCount)).1
    ensures Get(r.0, RetiredSwapchainF) == Get(t, SwapchainF) && Get(r.0, SwapchainF) == 0
    ensures forall i :: 0 <= i < s.imageCount ==> Get(r.0, ImageViewF(i)) == 0
    ensures forall f :: f !in CONTEXT_SET && f != RetiredSwapchainF ==> Get(r.0, f) == Get(t, f)
  {
    var fs := ViewFields(s.imageCount);
    var p := ReleaseSeq(t, g, fs);
    assert forall f :: f !in CONTEXT_SET ==> f !in fs by {
      ContextSetFacts();
    }
    assert RetiredSwapchainF !in fs && SwapchainF !in fs;
    (Move(p.0, SwapchainF, RetiredSwapchainF), p.1)
  }

  /** Retiring keeps the ownership invariant, is free of faults, and
      leaves the whole context null. */
  lemma RetireKeeps(t: Table, g: Gpu, s: SwapchainState)
    requires g.Valid() && Tracks(t, g) && Consistent(t, s) && Get(t, RetiredSwapchainF) == 0
    ensures var p := Retire(t, g, s);
      && Tracks(p.0, p.1) && p.1.faults == g.faults
      && (forall f :: f in CONTEXT_SET ==> Get(p.0, f) == 0)
  {
    ContextSetFacts();
    var fs := ViewFields(s.imageCount);
    var p := ReleaseSeq(t, g, fs);
    assert Tracks(p.0, p.1) && p.1.faults == g.faults by {
      ReleaseSeqKeeps(t, g, fs);
    }
    assert RetiredSwapchainF !in fs && SwapchainF !in fs;
    assert Tracks(Move(p.0, SwapchainF, RetiredSwapchainF), p.1) by {
      MoveKeeps(p.0, p.1, SwapchainF, RetiredSwapchainF);
    }
    var r := Retire(t, g, s);
    forall f | f in CONTEXT_SET
      ensures Get(r.0, f) == 0
    {
      if f != SwapchainF && f.image >= s.imageCount {
        assert Get(r.0, f) == Get(t, f);
      }
    }
  }

  /** The zeroing and swapchain creation append one event: the creation's. */
  lemma BeginLog(t: Table, g: Gpu, res: VkResult)
    requires g.Valid()
    ensures var L := Begin(t, g, res).1.log;
      && L == g.log + [L[|g.log|]]
      && (L[|g.log|].Created? || L[|g.log|].CreateFailed?) && L[|g.log|].kind == SwapchainK
  {
    MakeLog(Zero(t, CONTEXT_SET), g, SwapchainF, res);
  }

  /** The view loop only appends to the log. */
  lemma ViewsLog(t: Table, g: Gpu, n: nat, results: seq<VkResult>)
    requires g.Valid() && n <= MAX_SWAPCHAIN_IMAGES
    ensures var L := Views(t, g, n, results).g.log; |g.log| <= |L| && L[..|g.log|] == g.log
  {
    MakeSeqLog(t, g, ViewFields(n), results);
  }

  /** A creation appends to the log, and its first event is the swapchain
      creation. */
  lemma CreateLog(t: Table, g: Gpu, fams: Device.QueueFamilyIndices, width: u32, height: u32, retired: nat, d: Driver)
    requires g.Valid() && |d.support.formats| >= 1
    ensures var L := Create(t, g, fams, width, height, retired, d).g.log;
      && |g.log| < |L| && L[..|g.log|] == g.log
      && (L[|g.log|].Created? || L[|g.log|].CreateFailed?) && L[|g.log|].kind == SwapchainK
  {
    CreateSteps(t, g, fams, width, height, retired, d);
    var p := Begin(t, g, d.createRes);
    BeginLog(t, g, d.createRes);
    var e := p.1.log[|g.log|];
    if d.createRes == VkSuccess {
      var n := if d.reported > MAX_SWAPCHAIN_IMAGES then MAX_SWAPCHAIN_IMAGES else d.reported;
      var b := Views(p.0, p.1, n, d.viewResults);
      ViewsLog(p.0, p.1, n, d.viewResults);
      if b.res == VkSuccess {
        ExtendsThrough(g.log, e, p.1.log, b.g.log, b.g.log);
      } else {
        ReleaseExtendsLog(b.t, b.g, SwapchainF);
        ExtendsThrough(g.log, e, p.1.log, b.g.log, Release(b.t, b.g, SwapchainF).1.log);
      }
    }
  }

  /** Releasing the retired swapchain keeps the ownership invariant and the
      views, raises no fault, and appends the retired swapchain's
      destruction. */
  lemma ReleaseRetiredKeeps(t: Table, g: Gpu, s: SwapchainState)
    requires g.Valid() && Tracks(t, g)
    ensures var q := Release(t, g, RetiredSwapchainF);
      && Tracks(q.0, q.1) && q.1.faults == g.faults
      && (Consistent(t, s) ==> Consistent(q.0, s))
      && |g.log| <= |q.1.log| && q.1.log[..|g.log|] == g.log
      && (Get(t, RetiredSwapchainF) != 0 ==>
            Get(t, RetiredSwapchainF) !in q.1.live
            && q.1.log == g.log + [Destroyed(SwapchainK, Get(t, RetiredSwapchainF))])
  {
    var q := Release(t, g, RetiredSwapchainF);
    ReleaseKeeps(t, g, RetiredSwapchainF);
    DeviceChildHasNoChildren(t, SwapchainK);
    assert forall i :: Get(q.0, ImageViewF(i)) == Get(t, ImageViewF(i));
  }

  /** Recreating keeps the ownership invariant, leaves the old swapchain
      destroyed, and with the device and surface recorded is free of
      faults. */
  lemma RecreateKeeps(t: Table, g: Gpu, s: SwapchainState, fams: Device.QueueFamilyIndices, width: u32, height: u32, d: Driver)
    requires g.Valid() && Tracks(t, g) && Consistent(t, s) && Get(t, RetiredSwapchainF) == 0 && |d.support.formats| >= 1
    ensures var r := Recreate(t, g, s, fams, width, height, d);
      && Tracks(r.t, r.g) && Consistent(r.t, r.state)
      && (Get(t, SwapchainF) != 0 ==> Get(t, SwapchainF) !in r.g.live)
      && (Get(t, DeviceF) != 0 && Get(t, SurfaceF) != 0 ==> r.g.faults == g.faults)
  {
    var p := Retire(t, g, s);
    var c := Create(p.0, p.1, fams, width, height, Get(t, SwapchainF), d);
    CreateAfterRetire(t, g, s, fams, width, height, d);
    ReleaseRetiredKeeps(c.t, c.g, c.state);
    var q := Release(c.t, c.g, RetiredSwapchainF);
    assert Recreate(t, g, s, fams, width, height, d) == Made(q.0, q.1, c.state, c.res, c.info);
  }

  /** The order of `vk_swapchain_recreate`, first part: the recreation's
      log starts with the retirement's, which `RetireLog` shows is one
      destruction per non-null old image view. */
  lemma RecreateViewsFirst(t: Table, g: Gpu, s: SwapchainState, fams: Device.QueueFamilyIndices, width: u32, height: u32, d: Driver)
    requires g.Valid() && Tracks(t, g) && Consistent(t, s) && Get(t, RetiredSwapchainF) == 0 && |d.support.formats| >= 1
    ensures var L := Recreate(t, g, s, fams, width, height, d).g.log;
      var R := Retire(t, g, s).1.log;
      |R| < |L| && L[..|R|] == R
  {
    var p := Retire(t, g, s);
    var c := Create(p.0, p.1, fams, width, height, Get(t, SwapchainF), d);
    var L := Recreate(t, g, s, fams, width, height, d).g.log;
    assert |p.1.log| < |c.g.log| <= |L| && c.g.log[..|p.1.log|] == p.1.log && L[..|c.g.log|] == c.g.log by {
      RecreateLogSplit(t, g, s, fams, width, height, d);
    }
    PrefixTrans(p.1.log, c.g.log, L);
  }

  /** The order of `vk_swapchain_recreate`, second part: right after the
      view destructions comes the attempt to create the new swapchain. */
  lemma RecreateCreatesNext(t: Table, g: Gpu, s: SwapchainState, fams: Device.QueueFamilyIndices, width: u32, height: u32, d: Driver)
    requires g.Valid() && Tracks(t, g) && Consistent(t, s) && Get(t, RetiredSwapchainF) == 0 && |d.support.formats| >= 1
    ensures var L := Recreate(t, g, s, fams, width, height, d).g.log;
      var n := |Retire(t, g, s).1.log|;
      n < |L| && (L[n].Created? || L[n].CreateFailed?) && L[n].kind == SwapchainK
  {
    var p := Retire(t, g, s);
    var c := Create(p.0, p.1, fams, width, height, Get(t, SwapchainF), d);
    var L := Recreate(t, g, s, fams, width, height, d).g.log;
    var n := |p.1.log|;
    assert n < |c.g.log| <= |L| && L[..|c.g.log|] == c.g.log
      && (c.g.log[n].Created? || c.g.log[n].CreateFailed?) && c.g.log[n].kind == SwapchainK by {
      RecreateLogSplit(t, g, s, fams, width, height, d);
    }
    assert L[n] == L[..|c.g.log|][n];
  }

  /** The order of `vk_swapchain_recreate`, last part: the old swapchain is
      destroyed last, whatever the creation returned. */
  lemma RecreateRetiresLast(t: Table, g: Gpu, s: SwapchainState, fams: Device.QueueFamilyIndices, width: u32, height: u32, d: Driver)
    requires g.Valid() && Tracks(t, g) && Consistent(t, s) && Get(t, RetiredSwapchainF) == 0 && |d.support.formats| >= 1
    ensures var L := Recreate(t, g, s, fams, width, height, d).g.log;
      Get(t, SwapchainF) != 0 ==> |L| > 0 && L[|L| - 1] == Destroyed(SwapchainK, Get(t, SwapchainF))
  {
    RecreateLogSplit(t, g, s, fams, width, height, d);
  }

  /** Retiring appends one image-view destruction per non-null old view,
      and every non-null old view is destroyed. */
  lemma RetireLog(t: Table, g: Gpu, s: SwapchainState)
    requires g.Valid() && Tracks(t, g) && Consistent(t, s)
    ensures var L := Retire(t, g, s).1.log;
      var n := |g.log| + NonNull(Handles(t, ViewFields(s.imageCount)));
      && |L| == n && L[..|g.log|] == g.log
      && (forall i :: |g.log| <= i < n ==> L[i].Destroyed? && L[i].kind == ImageViewK)
      && (forall i :: 0 <= i < s.imageCount && Get(t, ImageViewF(i)) != 0 ==>
            Destroyed(ImageViewK, Get(t, ImageViewF(i))) in L[|g.log|..])
  {
    var fs := ViewFields(s.imageCount);
    var L := Retire(t, g, s).1.log;
    var n := |g.log| + NonNull(Handles(t, fs));
    assert |L| == n && L[..|g.log|] == g.log by {
      ReleaseSeqAppends(t, g, fs);
    }
    assert forall i :: |g.log| <= i < n ==> L[i].Destroyed? && L[i].kind == ImageViewK by {
      ReleaseSeqKinds(t, g, fs, ImageViewK);
    }
    assert forall i :: 0 <= i < s.imageCount && Get(t, ImageViewF(i)) != 0 ==>
      Destroyed(ImageViewK, Get(t, ImageViewF(i))) in L[|g.log|..] by {
      ReleaseSeqCovers(t, g, fs);
    }
  }

  /** Recreation writes only the swapchain, its views and the retired
      handle. */
  lemma RecreateTouchesContext(t: Table, g: Gpu, s: SwapchainState, fams: Device.QueueFamilyIndices, width: u32, height: u32, d: Driver)
    requires g.Valid() && s.imageCount <= MAX_SWAPCHAIN_IMAGES && |d.support.formats| >= 1
    ensures forall f: Field :: !f.ImageViewF? && f != SwapchainF && f != RetiredSwapchainF ==>
      Get(Recreate(t, g, s, fams, width, height, d).t, f) == Get(t, f)
  {
    ContextSetFacts();
  }

  /** Recreation only appends to the device's log, whatever the table
      holds. */
  lemma RecreateExtendsLog(t: Table, g: Gpu, s: SwapchainState, fams: Device.QueueFamilyIndices, width: u32, height: u32, d: Driver)
    requires g.Valid() && s.imageCount <= MAX_SWAPCHAIN_IMAGES && |d.support.formats| >= 1
    ensures var L := Recreate(t, g, s, fams, width, height, d).g.log;
      |g.log| <= |L| && L[..|g.log|] == g.log
  {
    var p := Retire(t, g, s);
    ReleaseSeqAppends(t, g, ViewFields(s.imageCount));
    var c := Create(p.0, p.1, fams, width, height, Get(t, SwapchainF), d);
    CreateLog(p.0, p.1, fams, width, height, Get(t, SwapchainF), d);
    var q := Release(c.t, c.g, RetiredSwapchainF);
    assert Recreate(t, g, s, fams, width, height, d).g == q.1;
    PrefixTrans(g.log, p.1.log, c.g.log);
    PrefixTrans(g.log, c.g.log, q.1.log);
  }

  /** The log of a recreation is the retirement's, then the creation's
      events starting with the swapchain, then the old swapchain's
      destruction. */
  lemma RecreateLogSplit(t: Table, g: Gpu, s: SwapchainState, fams: Device.QueueFamilyIndices, width: u32, height: u32, d: Driver)
    requires g.Valid() && Tracks(t, g) && Consistent(t, s) && Get(t, RetiredSwapchainF) == 0 && |d.support.formats| >= 1
    ensures var p := Retire(t, g, s);
      var c := Create(p.0, p.1, fams, width, height, Get(t, SwapchainF), d);
      var L := Recreate(t, g, s, fams, width, height, d).g.log;
      && |p.1.log| < |c.g.log| <= |L| && c.g.log[..|p.1.log|] == p.1.log && L[..|c.g.log|] == c.g.log
      && (c.g.log[|p.1.log|].Created? || c.g.log[|p.1.log|].CreateFailed?) && c.g.log[|p.1.log|].kind == SwapchainK
      && (Get(t, SwapchainF) != 0 ==> L[|L| - 1] == Destroyed(SwapchainK, Get(t, SwapchainF)))
  {
    var p := Retire(t, g, s);
    var c := Create(p.0, p.1, fams, width, height, Get(t, SwapchainF), d);
    CreateLog(p.0, p.1, fams, width, height, Get(t, SwapchainF), d);
    CreateAfterRetire(t, g, s, fams, width, height, d);
    ReleaseRetiredKeeps(c.t, c.g, c.state);
    var q := Release(c.t, c.g, RetiredSwapchainF);
    assert Recreate(t, g, s, fams, width, height, d).g == q.1;
  }

  /** Between retiring and releasing, the new swapchain is created under
      the ownership invariant while the old one is still live and recorded
      as retired. */
  lemma CreateAfterRetire(t: Table, g: Gpu, s: SwapchainState, fams: Device.QueueFamilyIndices, width: u32, height: u32, d: Driver)
    requires g.Valid() && Tracks(t, g) && Consistent(t, s) && Get(t, RetiredSwapchainF) == 0 && |d.support.formats| >= 1
    ensures var p := Retire(t, g, s);
      var c := Create(p.0, p.1, fams, width, height, Get(t, SwapchainF), d);
      && Tracks(c.t, c.g) && Get(c.t, RetiredSwapchainF) == Get(t, SwapchainF)
      && (Get(t, DeviceF) != 0 && Get(t, SurfaceF) != 0 ==> c.g.faults == g.faults)
  {
    OutsideContext();
    var p := Retire(t, g, s);
    RetireKeeps(t, g, s);
    CreateKeeps(p.0, p.1, fams, width, height, Get(t, SwapchainF), d);
  }
}
