/** The swapchain-dependent objects of `renderer/renderer_swapchain.c`: one
    framebuffer and one render-finished semaphore per swapchain image, and
    the recreation that tears them down, recreates the swapchain and builds
    them again. */
module RendererSwapchain {
  import opened Common
  import opened Ledger
  import Swapchain
  import opened RendererInternal

  /** The outcome of a creation loop: the renderer afterwards, the result,
      and how many objects the loop created before it stopped. */
  datatype Built = Built(r: Renderer, res: VkResult, made: nat)

  /** `renderer_internal_create_framebuffers`: records the image count as
      the framebuffer count, refuses more images than the array holds, and
      creates one framebuffer per image, stopping at the first failure
      without undoing the ones before it. */
  function CreateFramebuffers(r: Renderer, results: seq<VkResult>): (b: Built)
    requires r.g.Valid()
    ensures b.r.g.Valid() && b.r.framebufferCount == r.swapchain.imageCount
    ensures b.r.(t := r.t, g := r.g, framebufferCount := r.framebufferCount) == r
    ensures r.swapchain.imageCount > MAX_SWAPCHAIN_IMAGES ==>
      b.r.t == r.t && b.r.g == r.g && b.res == VkErrorInitializationFailed
    ensures b.made <= r.swapchain.imageCount
    ensures b.res == VkSuccess <==> b.made == r.swapchain.imageCount
    ensures r.swapchain.imageCount <= MAX_SWAPCHAIN_IMAGES ==>
      && (b.res != VkSuccess ==> b.res == ResultAt(results, b.made))
      && (forall i: nat :: 0 <= i < b.made ==> ResultAt(results, i) == VkSuccess)
  {
    var n := r.swapchain.imageCount;
    if n > MAX_SWAPCHAIN_IMAGES then Built(r.(framebufferCount := n), VkErrorInitializationFailed, 0)
    else
      var m := MakeSeq(r.t, r.g, FramebufferFields(n), results);
      Built(r.(t := m.t, g := m.g, framebufferCount := n), m.res, m.made)
  }

  /** The framebuffers created are the first `made` ones; on failure the
      failing slot holds no handle; the slots past it and every other field
      are as they were. */
  lemma CreateFramebuffersTable(r: Renderer, results: seq<VkResult>)
    requires r.g.Valid() && r.swapchain.imageCount <= MAX_SWAPCHAIN_IMAGES
    ensures var b := CreateFramebuffers(r, results);
      && (forall i: nat :: 0 <= i < b.made ==> Get(b.r.t, FramebufferF(i)) != 0)
      && (b.res != VkSuccess ==> Get(b.r.t, FramebufferF(b.made)) == 0)
      && (forall i: nat :: b.made < i ==> Get(b.r.t, FramebufferF(i)) == Get(r.t, FramebufferF(i)))
      && (forall i: nat :: r.swapchain.imageCount <= i ==> Get(b.r.t, FramebufferF(i)) == Get(r.t, FramebufferF(i)))
      && (forall f: Field :: !f.FramebufferF? ==> Get(b.r.t, f) == Get(r.t, f))
  {
    var n := r.swapchain.imageCount;
    var fs := FramebufferFields(n);
    var m := MakeSeq(r.t, r.g, fs, results);
    forall i: nat | m.made < i || n <= i
      ensures Get(m.t, FramebufferF(i)) == Get(r.t, FramebufferF(i))
    {
      if i < n { assert FramebufferF(i) == fs[i]; } else { assert FramebufferF(i) !in fs; }
    }
    forall f: Field | !f.FramebufferF?
      ensures Get(m.t, f) == Get(r.t, f)
    {
      assert f !in fs;
    }
    forall i: nat | 0 <= i < m.made
      ensures Get(m.t, FramebufferF(i)) != 0
    {
      assert FramebufferF(i) == fs[i];
    }
    if m.res != VkSuccess {
      assert FramebufferF(m.made) == fs[m.made];
    }
  }

  /** Creating framebuffers into empty slots keeps the ownership invariant,
      and with the device recorded raises no fault. */
  lemma CreateFramebuffersKeeps(r: Renderer, results: seq<VkResult>)
    requires r.g.Valid() && Tracks(r.t, r.g) && r.swapchain.imageCount <= MAX_SWAPCHAIN_IMAGES
    requires forall i: nat :: 0 <= i < r.swapchain.imageCount ==> Get(r.t, FramebufferF(i)) == 0
    ensures var b := CreateFramebuffers(r, results);
      && Tracks(b.r.t, b.r.g)
      && (Get(r.t, DeviceF) != 0 ==> b.r.g.faults == r.g.faults)
  {
    MakeSeqKeeps(r.t, r.g, FramebufferFields(r.swapchain.imageCount), results);
  }

  /** `renderer_internal_destroy_framebuffers` as written: destroys the
      framebuffers below the count and sets the count to zero, but leaves
      the handles in the array. */
  function AsWrittenDestroyFramebuffers(r: Renderer): (p: Renderer)
    requires r.g.Valid()
    ensures p.g.Valid() && p.t == r.t && p.framebufferCount == 0
    ensures p.(g := r.g, framebufferCount := r.framebufferCount) == r
  {
    r.(g := FreeSeq(r.t, r.g, FramebufferFields(r.framebufferCount)), framebufferCount := 0)
  }

  /** `renderer_internal_destroy_framebuffers` with each destroyed handle
      also cleared, as `renderer_internal_destroy_render_finished` does. */
  function DestroyFramebuffers(r: Renderer): (p: Renderer)
    requires r.g.Valid()
    ensures p.g.Valid() && p.framebufferCount == 0
    ensures forall i: nat :: 0 <= i < r.framebufferCount ==> Get(p.t, FramebufferF(i)) == 0
    ensures forall f: Field :: !(f.FramebufferF? && f.image < r.framebufferCount) ==> Get(p.t, f) == Get(r.t, f)
    ensures p.(t := r.t, g := r.g, framebufferCount := r.framebufferCount) == r
  {
    var fs := FramebufferFields(r.framebufferCount);
    var q := ReleaseSeq(r.t, r.g, fs);
    r.(t := q.0, g := q.1, framebufferCount := 0)
  }

  /** `renderer_internal_create_render_finished`: one semaphore per image,
      stopping at the first failure, which destroys and clears the ones
      created before it. */
  function CreateRenderFinished(r: Renderer, results: seq<VkResult>): (b: Built)
    requires r.g.Valid()
    ensures b.r.g.Valid() && b.r.(t := r.t, g := r.g) == r
    ensures b.made <= r.swapchain.imageCount
    ensures b.res == VkSuccess <==> b.made == r.swapchain.imageCount
    ensures b.res != VkSuccess ==> b.res == ResultAt(results, b.made)
  {
    var n := r.swapchain.imageCount;
    var m := MakeSeq(r.t, r.g, RenderFinishedFields(n), results);
    if m.res == VkSuccess then Built(r.(t := m.t, g := m.g), m.res, m.made)
    else
      var q := ReleaseSeq(m.t, m.g, RenderFinishedFields(m.made));
      Built(r.(t := q.0, g := q.1), m.res, m.made)
  }

  /** On success every image has its semaphore; on failure none of the
      slots up to the failing one holds a handle, and the slots past it are
      as they were; no other field changes. */
  lemma CreateRenderFinishedTable(r: Renderer, results: seq<VkResult>)
    requires r.g.Valid()
    ensures var b := CreateRenderFinished(r, results);
      && (b.res == VkSuccess ==> forall i: nat :: 0 <= i < r.swapchain.imageCount ==> Get(b.r.t, RenderFinishedF(i)) != 0)
      && (b.res != VkSuccess ==> forall i: nat :: 0 <= i <= b.made ==> Get(b.r.t, RenderFinishedF(i)) == 0)
      && (forall i: nat :: b.made < i ==> Get(b.r.t, RenderFinishedF(i)) == Get(r.t, RenderFinishedF(i)))
      && (forall f: Field :: !f.RenderFinishedF? ==> Get(b.r.t, f) == Get(r.t, f))
  {
    var m := MakeSeq(r.t, r.g, RenderFinishedFields(r.swapchain.imageCount), results);
    SemaphoresMade(r.t, r.g, r.swapchain.imageCount, results);
    var b := CreateRenderFinished(r, results);
    if m.res != VkSuccess {
      var q := ReleaseSeq(m.t, m.g, RenderFinishedFields(m.made));
      SemaphoresRolledBack(m.t, m.g, m.made);
      assert b.r.t == q.0 && b.made == m.made;
    } else {
      assert b.r.t == m.t;
    }
  }

  /** `MakeSeq` over the semaphore slots, restated slot by slot. */
  lemma SemaphoresMade(t: Table, g: Gpu, n: nat, results: seq<VkResult>)
    requires g.Valid()
    ensures var m := MakeSeq(t, g, RenderFinishedFields(n), results);
      && (m.res == VkSuccess ==> forall i: nat :: 0 <= i < n ==> Get(m.t, RenderFinishedF(i)) != 0)
      && (m.res != VkSuccess ==> Get(m.t, RenderFinishedF(m.made)) == 0)
      && (forall i: nat :: m.made < i ==> Get(m.t, RenderFinishedF(i)) == Get(t, RenderFinishedF(i)))
      && (forall f: Field :: !f.RenderFinishedF? ==> Get(m.t, f) == Get(t, f))
  {
    var fs := RenderFinishedFields(n);
    var m := MakeSeq(t, g, fs, results);
    forall i: nat | m.made < i
      ensures Get(m.t, RenderFinishedF(i)) == Get(t, RenderFinishedF(i))
    {
      if i < n { assert RenderFinishedF(i) == fs[i]; } else { assert RenderFinishedF(i) !in fs; }
    }
    forall f: Field | !f.RenderFinishedF?
      ensures Get(m.t, f) == Get(t, f)
    {
      assert f !in fs;
    }
    if m.res != VkSuccess {
      assert RenderFinishedF(m.made) == fs[m.made];
    } else {
      forall i: nat | 0 <= i < n
        ensures Get(m.t, RenderFinishedF(i)) != 0
      {
        assert RenderFinishedF(i) == fs[i];
      }
    }
  }

  /** `ReleaseSeq` over the first `made` semaphore slots, restated slot by
      slot. */
  lemma SemaphoresRolledBack(t: Table, g: Gpu, made: nat)
    requires g.Valid() && Get(t, RenderFinishedF(made)) == 0
    ensures var q := ReleaseSeq(t, g, RenderFinishedFields(made));
      && (forall i: nat :: 0 <= i <= made ==> Get(q.0, RenderFinishedF(i)) == 0)
      && (forall i: nat :: made <= i ==> Get(q.0, RenderFinishedF(i)) == Get(t, RenderFinishedF(i)))
      && (forall f: Field :: !f.RenderFinishedF? ==> Get(q.0, f) == Get(t, f))
  {
    var ms := RenderFinishedFields(made);
    var q := ReleaseSeq(t, g, ms);
    forall i: nat | made <= i
      ensures Get(q.0, RenderFinishedF(i)) == Get(t, RenderFinishedF(i))
    {
      assert RenderFinishedF(i) !in ms;
    }
    forall f: Field | !f.RenderFinishedF?
      ensures Get(q.0, f) == Get(t, f)
    {
      assert f !in ms;
    }
    forall i: nat | 0 <= i <= made
      ensures Get(q.0, RenderFinishedF(i)) == 0
    {
      if i < made { assert RenderFinishedF(i) == ms[i]; } else { assert RenderFinishedF(i) !in ms; }
    }
  }

  /** `renderer_internal_destroy_render_finished`: destroys and clears the
      semaphores of the current images. */
  function DestroyRenderFinished(r: Renderer): (p: Renderer)
    requires r.g.Valid()
    ensures p.g.Valid() && p.(t := r.t, g := r.g) == r
    ensures forall i: nat :: 0 <= i < r.swapchain.imageCount ==> Get(p.t, RenderFinishedF(i)) == 0
    ensures forall f: Field :: !(f.RenderFinishedF? && f.image < r.swapchain.imageCount) ==> Get(p.t, f) == Get(r.t, f)
  {
    var q := ReleaseSeq(r.t, r.g, RenderFinishedFields(r.swapchain.imageCount));
    r.(t := q.0, g := q.1)
  }

  /** Creating the semaphores into empty slots keeps the ownership
      invariant and, with the device recorded, raises no fault; a failure
      rolls back to the very handles and live objects it started from. */
  lemma CreateRenderFinishedKeeps(r: Renderer, results: seq<VkResult>)
    requires r.g.Valid() && Tracks(r.t, r.g)
    requires forall i: nat :: 0 <= i < r.swapchain.imageCount ==> Get(r.t, RenderFinishedF(i)) == 0
    ensures var b := CreateRenderFinished(r, results);
      && Tracks(b.r.t, b.r.g)
      && (Get(r.t, DeviceF) != 0 ==> b.r.g.faults == r.g.faults)
      && (b.res != VkSuccess ==> Same(b.r.t, r.t) && b.r.g.live == r.g.live)
  {
    var n := r.swapchain.imageCount;
    var m := MakeSeq(r.t, r.g, RenderFinishedFields(n), results);
    MakeSeqKeeps(r.t, r.g, RenderFinishedFields(n), results);
    var b := CreateRenderFinished(r, results);
    if m.res != VkSuccess {
      ReleaseSeqKeeps(m.t, m.g, RenderFinishedFields(m.made));
      CreateRenderFinishedTable(r, results);
      forall f: Field
        ensures Get(b.r.t, f) == Get(r.t, f)
      {
        if f.RenderFinishedF? && f.image <= b.made {
          assert f == RenderFinishedF(f.image);
        }
      }
      SameTableSameLive(b.r.t, b.r.g, r.t, r.g);
    }
  }

  /** Destroying the framebuffers keeps the ownership invariant and raises
      no fault. */
  lemma DestroyFramebuffersKeeps(r: Renderer)
    requires r.g.Valid() && Tracks(r.t, r.g)
    ensures var p := DestroyFramebuffers(r);
      Tracks(p.t, p.g) && p.g.faults == r.g.faults
  {
    ReleaseSeqKeeps(r.t, r.g, FramebufferFields(r.framebufferCount));
  }

  /** Destroying the semaphores keeps the ownership invariant and raises no
      fault. */
  lemma DestroyRenderFinishedKeeps(r: Renderer)
    requires r.g.Valid() && Tracks(r.t, r.g)
    ensures var p := DestroyRenderFinished(r);
      Tracks(p.t, p.g) && p.g.faults == r.g.faults
  {
    ReleaseSeqKeeps(r.t, r.g, RenderFinishedFields(r.swapchain.imageCount));
  }

  /** After the corrected destruction no framebuffer handle remains, so the
      ownership invariant holds with a count of zero. */
  lemma DestroyFramebuffersOwned(r: Renderer)
    requires Owned(r)
    ensures var p := DestroyFramebuffers(r);
      && Owned(p) && p.framebufferCount == 0 && p.g.faults == r.g.faults
      && (forall i: nat :: Get(p.t, FramebufferF(i)) == 0)
      && (Parents(r) <==> Parents(p))
  {
    DestroyFramebuffersKeeps(r);
    var p := DestroyFramebuffers(r);
    forall i: nat | r.framebufferCount <= i
      ensures Get(p.t, FramebufferF(i)) == 0
    {
      assert !(FramebufferF(i).FramebufferF? && FramebufferF(i).image < r.framebufferCount);
    }
  }

  /** What the environment answers during a recreation: the swapchain
      driver's answers, then one result per semaphore and per framebuffer. */
  datatype RecreateEnv = RecreateEnv(swapchain: Swapchain.Driver, renderFinished: seq<VkResult>, framebuffers: seq<VkResult>)

  /** The last step a recreation ran. */
  datatype Stage = SwapchainStage | RenderFinishedStage | FramebufferStage

  datatype Recreated = Recreated(r: Renderer, res: VkResult, reached: Stage)

  /** The middle of `renderer_internal_recreate_swapchain`: destroy the
      render-finished semaphores, then recreate the swapchain through the
      swapchain module. */
  function SwapStep(r: Renderer, width: u32, height: u32, d: Swapchain.Driver): (p: (Renderer, VkResult))
    requires r.g.Valid() && r.swapchain.imageCount <= MAX_SWAPCHAIN_IMAGES && |d.support.formats| >= 1
    ensures p.0.g.Valid()
    ensures p.0.(t := r.t, g := r.g, swapchain := r.swapchain) == r
  {
    var r1 := DestroyRenderFinished(r);
    var m := Swapchain.Recreate(r1.t, r1.g, r1.swapchain, r1.fams, width, height, d);
    (r1.(t := m.t, g := m.g, swapchain := m.state), m.res)
  }

  /** The `memset`s of the fence copies and of the semaphore slots. */
  function ClearImages(r: Renderer): (p: Renderer)
    ensures p.imagesInFlight == Nulls(MAX_SWAPCHAIN_IMAGES)
    ensures forall f: Field :: !f.RenderFinishedF? ==> Get(p.t, f) == Get(r.t, f)
    ensures forall i: nat :: 0 <= i < MAX_SWAPCHAIN_IMAGES ==> Get(p.t, RenderFinishedF(i)) == 0
    ensures forall i: nat :: MAX_SWAPCHAIN_IMAGES <= i ==> Get(p.t, RenderFinishedF(i)) == Get(r.t, RenderFinishedF(i))
    ensures p.(t := r.t, imagesInFlight := r.imagesInFlight) == r
  {
    RenderFinishedSetFacts();
    r.(t := Zero(r.t, RENDER_FINISHED_SET), imagesInFlight := Nulls(MAX_SWAPCHAIN_IMAGES))
  }

  /** The tail of `renderer_internal_recreate_swapchain` once the swapchain
      exists again: clear the fence copies and the semaphore slots, create
      the semaphores, then the framebuffers. */
  function BuildStep(r: Renderer, env: RecreateEnv): (p: Recreated)
    requires r.g.Valid()
    ensures p.r.g.Valid() && p.reached != SwapchainStage
    ensures p.r.imagesInFlight == Nulls(MAX_SWAPCHAIN_IMAGES) && p.r.swapchain == r.swapchain
    ensures p.res == VkSuccess ==> p.reached == FramebufferStage
    ensures p.reached == RenderFinishedStage ==> p.r.framebufferCount == r.framebufferCount
    ensures p.r.(t := r.t, g := r.g, framebufferCount := r.framebufferCount, imagesInFlight := r.imagesInFlight) == r
  {
    var b := CreateRenderFinished(ClearImages(r), env.renderFinished);
    if b.res != VkSuccess then Recreated(b.r, b.res, RenderFinishedStage)
    else
      var c := CreateFramebuffers(b.r, env.framebuffers);
      Recreated(c.r, c.res, FramebufferStage)
  }

  /** `renderer_internal_recreate_swapchain` after its first call, which
      destroys the framebuffers; a swapchain failure returns at once. */
  function Rebuild(r: Renderer, width: u32, height: u32, env: RecreateEnv): (p: Recreated)
    requires r.g.Valid() && r.swapchain.imageCount <= MAX_SWAPCHAIN_IMAGES && |env.swapchain.support.formats| >= 1
    ensures p.r.g.Valid()
    ensures p.res == VkSuccess ==> p.reached == FramebufferStage
    ensures p.reached == SwapchainStage ==> p.res != VkSuccess && p.r.imagesInFlight == r.imagesInFlight
    ensures p.reached != SwapchainStage ==> p.r.imagesInFlight == Nulls(MAX_SWAPCHAIN_IMAGES)
    ensures p.reached != FramebufferStage ==> p.r.framebufferCount == r.framebufferCount
  {
    var s := SwapStep(r, width, height, env.swapchain);
    if s.1 != VkSuccess then Recreated(s.0, s.1, SwapchainStage) else BuildStep(s.0, env)
  }

  /** `renderer_internal_recreate_swapchain` as written. */
  function AsWrittenRecreateSwapchain(r: Renderer, width: u32, height: u32, env: RecreateEnv): (p: Recreated)
    requires r.g.Valid() && r.swapchain.imageCount <= MAX_SWAPCHAIN_IMAGES && |env.swapchain.support.formats| >= 1
    ensures p.r.g.Valid()
  {
    Rebuild(AsWrittenDestroyFramebuffers(r), width, height, env)
  }

  /** `renderer_internal_recreate_swapchain` with the corrected framebuffer
      destruction; the rest of the model uses this one. */
  function RecreateSwapchain(r: Renderer, width: u32, height: u32, env: RecreateEnv): (p: Recreated)
    requires r.g.Valid() && r.swapchain.imageCount <= MAX_SWAPCHAIN_IMAGES && |env.swapchain.support.formats| >= 1
    ensures p.r.g.Valid()
    ensures p.res == VkSuccess ==> p.reached == FramebufferStage
    ensures p.reached == SwapchainStage ==> p.res != VkSuccess && p.r.imagesInFlight == r.imagesInFlight
    ensures p.reached != SwapchainStage ==> p.r.imagesInFlight == Nulls(MAX_SWAPCHAIN_IMAGES)
    ensures p.reached != FramebufferStage ==> p.r.framebufferCount == 0
  {
    Rebuild(DestroyFramebuffers(r), width, height, env)
  }

  /** No semaphore and no framebuffer slot holds a handle. */
  ghost predicate Cleared(r: Renderer) {
    forall i: nat :: Get(r.t, RenderFinishedF(i)) == 0 && Get(r.t, FramebufferF(i)) == 0
  }

  /** After destroying the semaphores and recreating the swapchain, the
      swapchain field holds a handle exactly on success and no retired
      handle is left. */
  lemma SwapStepSwapchain(r: Renderer, width: u32, height: u32, d: Swapchain.Driver)
    requires r.g.Valid() && r.swapchain.imageCount <= MAX_SWAPCHAIN_IMAGES && |d.support.formats| >= 1
    ensures var s := SwapStep(r, width, height, d);
      && (s.1 == VkSuccess <==> Get(s.0.t, SwapchainF) != 0)
      && Get(s.0.t, RetiredSwapchainF) == 0
  {
    var r1 := DestroyRenderFinished(r);
    var m := Swapchain.Recreate(r1.t, r1.g, r1.swapchain, r1.fams, width, height, d);
    assert SwapStep(r, width, height, d) == (r1.(t := m.t, g := m.g, swapchain := m.state), m.res);
  }

  /** Destroying the semaphores and recreating the swapchain clears the
      semaphores of the old images and leaves the other semaphore slots,
      the framebuffers, the device and the surface as they were. */
  lemma SwapStepTable(r: Renderer, width: u32, height: u32, d: Swapchain.Driver)
    requires r.g.Valid() && r.swapchain.imageCount <= MAX_SWAPCHAIN_IMAGES && |d.support.formats| >= 1
    ensures var t := SwapStep(r, width, height, d).0.t;
      && (forall i: nat :: 0 <= i < r.swapchain.imageCount ==> Get(t, RenderFinishedF(i)) == 0)
      && (forall i: nat :: r.swapchain.imageCount <= i ==> Get(t, RenderFinishedF(i)) == Get(r.t, RenderFinishedF(i)))
      && (forall i: nat :: Get(t, FramebufferF(i)) == Get(r.t, FramebufferF(i)))
      && Get(t, DeviceF) == Get(r.t, DeviceF) && Get(t, SurfaceF) == Get(r.t, SurfaceF)
  {
    var r1 := DestroyRenderFinished(r);
    var m := Swapchain.Recreate(r1.t, r1.g, r1.swapchain, r1.fams, width, height, d);
    assert SwapStep(r, width, height, d).0.t == m.t;
    Swapchain.RecreateTouchesContext(r1.t, r1.g, r1.swapchain, r1.fams, width, height, d);
    SemaphoresThenContext(r.t, r1.t, m.t, r.swapchain.imageCount);
  }

  /** Clearing the first `n` semaphores and then writing only the
      swapchain, its views and the retired handle leaves the first `n`
      semaphores null and every other semaphore, framebuffer, device and
      surface as it was. */
  lemma SemaphoresThenContext(t0: Table, t1: Table, t2: Table, n: nat)
    requires forall i: nat :: 0 <= i < n ==> Get(t1, RenderFinishedF(i)) == 0
    requires forall f: Field :: !(f.RenderFinishedF? && f.image < n) ==> Get(t1, f) == Get(t0, f)
    requires forall f: Field :: !f.ImageViewF? && f != SwapchainF && f != RetiredSwapchainF ==> Get(t2, f) == Get(t1, f)
    ensures forall i: nat :: 0 <= i < n ==> Get(t2, RenderFinishedF(i)) == 0
    ensures forall i: nat :: n <= i ==> Get(t2, RenderFinishedF(i)) == Get(t0, RenderFinishedF(i))
    ensures forall i: nat :: Get(t2, FramebufferF(i)) == Get(t0, FramebufferF(i))
    ensures Get(t2, DeviceF) == Get(t0, DeviceF) && Get(t2, SurfaceF) == Get(t0, SurfaceF)
  {
    forall i: nat
      ensures Get(t2, RenderFinishedF(i)) == Get(t1, RenderFinishedF(i))
      ensures Get(t2, FramebufferF(i)) == Get(t1, FramebufferF(i)) == Get(t0, FramebufferF(i))
    {
      assert !FramebufferF(i).RenderFinishedF?;
    }
    assert Get(t2, DeviceF) == Get(t1, DeviceF) && Get(t2, SurfaceF) == Get(t1, SurfaceF);
  }

  /** Destroying the semaphores and recreating the swapchain writes only
      the semaphore slots, the swapchain, its views and the retired
      handle. */
  lemma SwapStepOthers(r: Renderer, width: u32, height: u32, d: Swapchain.Driver)
    requires r.g.Valid() && r.swapchain.imageCount <= MAX_SWAPCHAIN_IMAGES && |d.support.formats| >= 1
    ensures forall f: Field :: !f.ImageViewF? && f != SwapchainF && f != RetiredSwapchainF && !f.RenderFinishedF? ==>
      Get(SwapStep(r, width, height, d).0.t, f) == Get(r.t, f)
  {
    var r1 := DestroyRenderFinished(r);
    var m := Swapchain.Recreate(r1.t, r1.g, r1.swapchain, r1.fams, width, height, d);
    assert SwapStep(r, width, height, d) == (r1.(t := m.t, g := m.g, swapchain := m.state), m.res);
    Swapchain.RecreateTouchesContext(r1.t, r1.g, r1.swapchain, r1.fams, width, height, d);
  }

  /** With no framebuffer left, destroying the semaphores and recreating
      the swapchain keeps the ownership invariant, leaves every semaphore
      and framebuffer slot empty, and with the device and surface recorded
      raises no fault. */
  lemma SwapStepKeeps(r: Renderer, width: u32, height: u32, d: Swapchain.Driver)
    requires Owned(r) && r.framebufferCount == 0 && |d.support.formats| >= 1
    ensures Owned(SwapStep(r, width, height, d).0) && Cleared(SwapStep(r, width, height, d).0)
    ensures Parents(SwapStep(r, width, height, d).0) == Parents(r)
    ensures Parents(r) ==> SwapStep(r, width, height, d).0.g.faults == r.g.faults
  {
    var r1 := DestroyRenderFinished(r);
    DestroyRenderFinishedKeeps(r);
    assert Swapchain.Consistent(r1.t, r1.swapchain) by {
      forall i: nat | r1.swapchain.imageCount <= i < MAX_SWAPCHAIN_IMAGES
        ensures Get(r1.t, ImageViewF(i)) == 0
      {
        assert Get(r1.t, ImageViewF(i)) == Get(r.t, ImageViewF(i));
      }
    }
    Swapchain.RecreateKeeps(r1.t, r1.g, r1.swapchain, r1.fams, width, height, d);
    var m := Swapchain.Recreate(r1.t, r1.g, r1.swapchain, r1.fams, width, height, d);
    SwapStepTable(r, width, height, d);
    SwapStepSwapchain(r, width, height, d);
    var s := SwapStep(r, width, height, d);
    assert s.0.t == m.t && s.0.g == m.g && s.0.swapchain == m.state;
    assert Cleared(s.0) by {
      forall i: nat
        ensures Get(s.0.t, RenderFinishedF(i)) == 0 && Get(s.0.t, FramebufferF(i)) == 0
      {
        assert Get(r.t, FramebufferF(i)) == 0;
        if r.swapchain.imageCount <= i {
          assert Get(r.t, RenderFinishedF(i)) == 0;
        }
      }
    }
  }

  /** A successful build gives every image a semaphore and a framebuffer,
      and the count is the image count. */
  lemma BuildStepSucceeds(r: Renderer, env: RecreateEnv)
    requires r.g.Valid() && r.swapchain.imageCount <= MAX_SWAPCHAIN_IMAGES && Cleared(r)
    ensures var p := BuildStep(r, env);
      p.res == VkSuccess ==>
        && p.r.framebufferCount == r.swapchain.imageCount
        && forall i: nat :: 0 <= i < r.swapchain.imageCount ==>
             Get(p.r.t, RenderFinishedF(i)) != 0 && Get(p.r.t, FramebufferF(i)) != 0
  {
    var r3 := ClearImages(r);
    var b := CreateRenderFinished(r3, env.renderFinished);
    if b.res == VkSuccess {
      CreateRenderFinishedTable(r3, env.renderFinished);
      CreateFramebuffersTable(b.r, env.framebuffers);
      var c := CreateFramebuffers(b.r, env.framebuffers);
      assert BuildStep(r, env) == Recreated(c.r, c.res, FramebufferStage);
      forall i: nat | 0 <= i < r.swapchain.imageCount
        ensures Get(c.r.t, RenderFinishedF(i)) == Get(b.r.t, RenderFinishedF(i))
      {
        assert !RenderFinishedF(i).FramebufferF?;
      }
    }
  }

  /** After a semaphore failure every slot is empty again. */
  lemma BuildStepSemaphoreFails(r: Renderer, env: RecreateEnv)
    requires r.g.Valid() && r.swapchain.imageCount <= MAX_SWAPCHAIN_IMAGES && Cleared(r)
    ensures var p := BuildStep(r, env);
      p.reached == RenderFinishedStage ==> Cleared(p.r)
  {
    var r3 := ClearImages(r);
    var b := CreateRenderFinished(r3, env.renderFinished);
    if b.res != VkSuccess {
      CreateRenderFinishedTable(r3, env.renderFinished);
      assert BuildStep(r, env) == Recreated(b.r, b.res, RenderFinishedStage);
      forall i: nat
        ensures Get(b.r.t, RenderFinishedF(i)) == 0 && Get(b.r.t, FramebufferF(i)) == 0
      {
        assert Get(b.r.t, FramebufferF(i)) == Get(r3.t, FramebufferF(i));
        if i > b.made { assert Get(r3.t, RenderFinishedF(i)) == 0; }
      }
    }
  }

  /** After a framebuffer failure the count is the image count, and no
      slot whose creation failed holds a handle. */
  lemma BuildStepFramebufferFails(r: Renderer, env: RecreateEnv)
    requires r.g.Valid() && r.swapchain.imageCount <= MAX_SWAPCHAIN_IMAGES && Cleared(r)
    ensures var p := BuildStep(r, env);
      p.reached == FramebufferStage ==>
        && p.r.framebufferCount == r.swapchain.imageCount
        && (p.res != VkSuccess ==> forall i: nat :: ResultAt(env.framebuffers, i) != VkSuccess ==> Get(p.r.t, FramebufferF(i)) == 0)
  {
    var r3 := ClearImages(r);
    var b := CreateRenderFinished(r3, env.renderFinished);
    if b.res == VkSuccess {
      CreateRenderFinishedTable(r3, env.renderFinished);
      assert forall i: nat :: Get(b.r.t, FramebufferF(i)) == 0 by {
        forall i: nat ensures Get(b.r.t, FramebufferF(i)) == 0 {
          assert Get(b.r.t, FramebufferF(i)) == Get(r3.t, FramebufferF(i));
        }
      }
      FailedFramebuffersNull(b.r, env.framebuffers);
      assert BuildStep(r, env) == Recreated(CreateFramebuffers(b.r, env.framebuffers).r, CreateFramebuffers(b.r, env.framebuffers).res, FramebufferStage);
    }
  }

  /** Creating framebuffers into empty slots leaves no handle in a slot
      whose creation failed. */
  lemma FailedFramebuffersNull(r: Renderer, results: seq<VkResult>)
    requires r.g.Valid() && forall i: nat :: Get(r.t, FramebufferF(i)) == 0
    ensures var c := CreateFramebuffers(r, results);
      c.res != VkSuccess ==> forall i: nat :: ResultAt(results, i) != VkSuccess ==> Get(c.r.t, FramebufferF(i)) == 0
  {
    var c := CreateFramebuffers(r, results);
    if r.swapchain.imageCount <= MAX_SWAPCHAIN_IMAGES {
      CreateFramebuffersTable(r, results);
      forall i: nat | c.res != VkSuccess && ResultAt(results, i) != VkSuccess
        ensures Get(c.r.t, FramebufferF(i)) == 0
      {
        if i > c.made {
          assert Get(c.r.t, FramebufferF(i)) == Get(r.t, FramebufferF(i));
        }
      }
    }
  }

  /** Building into empty slots keeps the table tracking the device, and
      with the device recorded raises no fault. */
  lemma BuildStepTracks(r: Renderer, env: RecreateEnv)
    requires r.g.Valid() && Tracks(r.t, r.g) && r.swapchain.imageCount <= MAX_SWAPCHAIN_IMAGES && Cleared(r)
    ensures Tracks(BuildStep(r, env).r.t, BuildStep(r, env).r.g)
    ensures Get(r.t, DeviceF) != 0 ==> BuildStep(r, env).r.g.faults == r.g.faults
  {
    RenderFinishedSetFacts();
    ZeroOfNulls(r.t, r.g, RENDER_FINISHED_SET);
    var r3 := ClearImages(r);
    assert r3.t == Zero(r.t, RENDER_FINISHED_SET);
    CreateRenderFinishedKeeps(r3, env.renderFinished);
    var b := CreateRenderFinished(r3, env.renderFinished);
    if b.res == VkSuccess {
      CreateRenderFinishedTable(r3, env.renderFinished);
      assert forall i: nat :: Get(b.r.t, FramebufferF(i)) == Get(r3.t, FramebufferF(i));
      CreateFramebuffersKeeps(b.r, env.framebuffers);
    }
  }

  /** The build step writes only semaphore and framebuffer slots, and
      leaves none beyond the image count. */
  lemma BuildStepFields(r: Renderer, env: RecreateEnv)
    requires r.g.Valid() && r.swapchain.imageCount <= MAX_SWAPCHAIN_IMAGES && Cleared(r)
    ensures forall f: Field :: !f.RenderFinishedF? && !f.FramebufferF? ==> Get(BuildStep(r, env).r.t, f) == Get(r.t, f)
    ensures forall i: nat :: r.swapchain.imageCount <= i ==>
      Get(BuildStep(r, env).r.t, RenderFinishedF(i)) == 0 && Get(BuildStep(r, env).r.t, FramebufferF(i)) == 0
  {
    var r3 := ClearImages(r);
    CreateRenderFinishedTable(r3, env.renderFinished);
    var b := CreateRenderFinished(r3, env.renderFinished);
    if b.res == VkSuccess {
      CreateFramebuffersTable(b.r, env.framebuffers);
      var c := CreateFramebuffers(b.r, env.framebuffers);
      assert BuildStep(r, env) == Recreated(c.r, c.res, FramebufferStage);
      forall i: nat | r.swapchain.imageCount <= i
        ensures Get(c.r.t, RenderFinishedF(i)) == 0 && Get(c.r.t, FramebufferF(i)) == 0
      {
        assert !RenderFinishedF(i).FramebufferF?;
        assert Get(b.r.t, FramebufferF(i)) == Get(r3.t, FramebufferF(i));
      }
    } else {
      assert BuildStep(r, env) == Recreated(b.r, b.res, RenderFinishedStage);
    }
  }

  /** Building into empty slots keeps the ownership invariant, and with the
      device recorded raises no fault. */
  lemma BuildStepKeeps(r: Renderer, env: RecreateEnv)
    requires Owned(r) && Cleared(r)
    ensures Owned(BuildStep(r, env).r)
    ensures Get(r.t, DeviceF) != 0 ==> BuildStep(r, env).r.g.faults == r.g.faults
    ensures Get(BuildStep(r, env).r.t, DeviceF) == Get(r.t, DeviceF)
    ensures Get(BuildStep(r, env).r.t, SurfaceF) == Get(r.t, SurfaceF)
  {
    BuildStepTracks(r, env);
    BuildStepFields(r, env);
    BuildStepSemaphoreFails(r, env);
    BuildStepFramebufferFails(r, env);
    var p := BuildStep(r, env);
    assert Swapchain.Consistent(p.r.t, p.r.swapchain) by {
      forall i: nat | p.r.swapchain.imageCount <= i < MAX_SWAPCHAIN_IMAGES
        ensures Get(p.r.t, ImageViewF(i)) == 0
      {
        assert Get(p.r.t, ImageViewF(i)) == Get(r.t, ImageViewF(i));
      }
    }
    assert forall i: nat :: p.r.framebufferCount <= i ==> Get(p.r.t, FramebufferF(i)) == 0;
  }

  /** Recreating keeps the ownership invariant of the swapchain-dependent
      state, and with the device and surface recorded raises no fault: no
      object is destroyed twice or while still needed. */
  lemma RecreateKeeps(r: Renderer, width: u32, height: u32, env: RecreateEnv)
    requires Owned(r) && |env.swapchain.support.formats| >= 1
    ensures var p := RecreateSwapchain(r, width, height, env);
      && Owned(p.r)
      && (Parents(r) ==> Parents(p.r) && p.r.g.faults == r.g.faults)
  {
    DestroyFramebuffersOwned(r);
    var r0 := DestroyFramebuffers(r);
    SwapStepKeeps(r0, width, height, env.swapchain);
    var s := SwapStep(r0, width, height, env.swapchain);
    if s.1 == VkSuccess {
      BuildStepKeeps(s.0, env);
    }
  }

  /** What a recreation leaves behind, per outcome. On success every new
      image has its semaphore and framebuffer, the count matches the image
      count and the swapchain exists; when the swapchain could not be
      recreated it is gone and no framebuffer or semaphore is left; when a
      semaphore fails no framebuffer and no semaphore exists. The fields of
      the renderer other than the handles, the swapchain state, the count
      and the fence copies are untouched. */
  lemma RecreateOutcome(r: Renderer, width: u32, height: u32, env: RecreateEnv)
    requires Owned(r) && |env.swapchain.support.formats| >= 1
    ensures var p := RecreateSwapchain(r, width, height, env);
      p.r.(t := r.t, g := r.g, swapchain := r.swapchain, framebufferCount := r.framebufferCount,
           imagesInFlight := r.imagesInFlight) == r
    ensures var p := RecreateSwapchain(r, width, height, env);
      p.res == VkSuccess ==>
        && p.r.framebufferCount == p.r.swapchain.imageCount && Get(p.r.t, SwapchainF) != 0
        && forall i: nat :: 0 <= i < p.r.swapchain.imageCount ==>
             Get(p.r.t, RenderFinishedF(i)) != 0 && Get(p.r.t, FramebufferF(i)) != 0
    ensures var p := RecreateSwapchain(r, width, height, env);
      p.reached == SwapchainStage ==> Get(p.r.t, SwapchainF) == 0 && Cleared(p.r)
    ensures var p := RecreateSwapchain(r, width, height, env);
      p.reached == RenderFinishedStage ==> Cleared(p.r)
  {
    DestroyFramebuffersOwned(r);
    var r0 := DestroyFramebuffers(r);
    SwapStepKeeps(r0, width, height, env.swapchain);
    SwapStepSwapchain(r0, width, height, env.swapchain);
    var s := SwapStep(r0, width, height, env.swapchain);
    if s.1 == VkSuccess {
      BuildStepSucceeds(s.0, env);
      BuildStepSemaphoreFails(s.0, env);
      BuildStepKeepsSwapchain(s.0, env);
      assert RecreateSwapchain(r, width, height, env) == BuildStep(s.0, env);
    } else {
      assert RecreateSwapchain(r, width, height, env) == Recreated(s.0, s.1, SwapchainStage);
    }
  }

  /** The semaphores and framebuffers leave the swapchain handle alone. */
  lemma BuildStepKeepsSwapchain(r: Renderer, env: RecreateEnv)
    requires r.g.Valid() && r.swapchain.imageCount <= MAX_SWAPCHAIN_IMAGES && Cleared(r)
    ensures Get(BuildStep(r, env).r.t, SwapchainF) == Get(r.t, SwapchainF)
  {
    var b := CreateRenderFinished(ClearImages(r), env.renderFinished);
    CreateRenderFinishedTable(ClearImages(r), env.renderFinished);
    if b.res == VkSuccess {
      CreateFramebuffersTable(b.r, env.framebuffers);
    }
  }

  /** A recreation writes only the swapchain, its views, the semaphore
      and framebuffer slots and the retired handle; the frame slots' objects,
      the device and everything else keep their handles. */
  lemma RecreateKeepsSlots(r: Renderer, width: u32, height: u32, env: RecreateEnv)
    requires Owned(r) && |env.swapchain.support.formats| >= 1
    ensures forall f: Field ::
      !f.ImageViewF? && f != SwapchainF && f != RetiredSwapchainF && !f.RenderFinishedF? && !f.FramebufferF? ==>
        Get(RecreateSwapchain(r, width, height, env).r.t, f) == Get(r.t, f)
  {
    DestroyFramebuffersOwned(r);
    var r0 := DestroyFramebuffers(r);
    SwapStepKeeps(r0, width, height, env.swapchain);
    SwapStepOthers(r0, width, height, env.swapchain);
    var s := SwapStep(r0, width, height, env.swapchain);
    if s.1 == VkSuccess {
      BuildStepFields(s.0, env);
    }
  }

  /** The device's log only grows across a rebuild, whatever the table
      holds. */
  lemma RebuildExtendsLog(r: Renderer, width: u32, height: u32, env: RecreateEnv)
    requires r.g.Valid() && r.swapchain.imageCount <= MAX_SWAPCHAIN_IMAGES && |env.swapchain.support.formats| >= 1
    ensures var L := Rebuild(r, width, height, env).r.g.log;
      |r.g.log| <= |L| && L[..|r.g.log|] == r.g.log
  {
    var r1 := DestroyRenderFinished(r);
    ReleaseSeqAppends(r.t, r.g, RenderFinishedFields(r.swapchain.imageCount));
    Swapchain.RecreateExtendsLog(r1.t, r1.g, r1.swapchain, r1.fams, width, height, env.swapchain);
    var s := SwapStep(r, width, height, env.swapchain);
    PrefixTrans(r.g.log, r1.g.log, s.0.g.log);
    if s.1 == VkSuccess {
      BuildExtendsLog(s.0, env);
      PrefixTrans(r.g.log, s.0.g.log, BuildStep(s.0, env).r.g.log);
    }
  }

  /** The semaphore and framebuffer steps of a rebuild only append to the
      device's log. */
  lemma BuildExtendsLog(r: Renderer, env: RecreateEnv)
    requires r.g.Valid()
    ensures var L := BuildStep(r, env).r.g.log;
      |r.g.log| <= |L| && L[..|r.g.log|] == r.g.log
  {
    var r3 := ClearImages(r);
    var n := r3.swapchain.imageCount;
    var m := MakeSeq(r3.t, r3.g, RenderFinishedFields(n), env.renderFinished);
    MakeSeqLog(r3.t, r3.g, RenderFinishedFields(n), env.renderFinished);
    var b := CreateRenderFinished(r3, env.renderFinished);
    if b.res != VkSuccess {
      ReleaseSeqAppends(m.t, m.g, RenderFinishedFields(m.made));
      PrefixTrans(r.g.log, m.g.log, b.r.g.log);
    } else if b.r.swapchain.imageCount <= MAX_SWAPCHAIN_IMAGES {
      var c := MakeSeq(b.r.t, b.r.g, FramebufferFields(n), env.framebuffers);
      MakeSeqLog(b.r.t, b.r.g, FramebufferFields(n), env.framebuffers);
      PrefixTrans(r.g.log, b.r.g.log, c.g.log);
    }
  }

  /** `renderer_internal_destroy_framebuffers` leaves the destroyed handles
      in the array and the next creation sets the count before creating
      anything. When a recreation's first framebuffer fails, the stale
      handle of the second framebuffer is back under the count, and the
      next destruction destroys it a second time. */
  lemma AsWrittenStaleFramebufferDestroyedTwice(r: Renderer, width: u32, height: u32, env: RecreateEnv)
    requires Owned(r) && |env.swapchain.support.formats| >= 1
    requires r.framebufferCount >= 2 && Get(r.t, FramebufferF(1)) != 0
    requires ResultAt(env.framebuffers, 0) != VkSuccess
    requires var p := AsWrittenRecreateSwapchain(r, width, height, env);
      p.reached == FramebufferStage && p.r.swapchain.imageCount >= 2
    ensures var p := AsWrittenRecreateSwapchain(r, width, height, env);
      var h := Get(r.t, FramebufferF(1));
      DestroyCalls(AsWrittenDestroyFramebuffers(p.r).g.log, h) >= DestroyCalls(r.g.log, h) + 2
  {
    var h := Get(r.t, FramebufferF(1));
    var a := AsWrittenDestroyFramebuffers(r);
    AsWrittenDestroysSecond(r);
    var p := AsWrittenRecreateSwapchain(r, width, height, env);
    assert p == Rebuild(a, width, height, env);
    RebuildExtendsLog(a, width, height, env);
    DestroyCallsPrefix(a.g.log, p.r.g.log, h);
    RebuildKeepsLaterFramebuffers(a, width, height, env);
    AsWrittenDestroysSecond(p.r);
  }

  /** Destroying the framebuffers as written calls the destruction of the
      second framebuffer's handle once more, when it is under the count. */
  lemma AsWrittenDestroysSecond(r: Renderer)
    requires r.g.Valid() && r.framebufferCount >= 2 && Get(r.t, FramebufferF(1)) != 0
    ensures var h := Get(r.t, FramebufferF(1));
      && DestroyCalls(AsWrittenDestroyFramebuffers(r).g.log, h) > DestroyCalls(r.g.log, h)
      && |r.g.log| <= |AsWrittenDestroyFramebuffers(r).g.log|
      && AsWrittenDestroyFramebuffers(r).g.log[..|r.g.log|] == r.g.log
  {
    var fs := FramebufferFields(r.framebufferCount);
    FreeSeqCalls(r.t, r.g, fs);
    assert fs[1] == FramebufferF(1);
  }

  /** When the first framebuffer fails, a rebuild that got as far as the
      framebuffers leaves every later framebuffer slot as it found it. */
  lemma RebuildKeepsLaterFramebuffers(r: Renderer, width: u32, height: u32, env: RecreateEnv)
    requires r.g.Valid() && r.swapchain.imageCount <= MAX_SWAPCHAIN_IMAGES && |env.swapchain.support.formats| >= 1
    ensures var p := Rebuild(r, width, height, env);
      && (p.reached == FramebufferStage ==> p.r.framebufferCount == p.r.swapchain.imageCount)
      && (p.reached == FramebufferStage && ResultAt(env.framebuffers, 0) != VkSuccess ==>
            forall i: nat :: 1 <= i ==> Get(p.r.t, FramebufferF(i)) == Get(r.t, FramebufferF(i)))
  {
    var s := SwapStep(r, width, height, env.swapchain);
    SwapStepTable(r, width, height, env.swapchain);
    if s.1 == VkSuccess {
      assert Rebuild(r, width, height, env) == BuildStep(s.0, env);
      BuildStepKeepsLaterFramebuffers(s.0, env);
    }
  }

  /** When the first framebuffer fails, a build step that got as far as the
      framebuffers leaves every later framebuffer slot as it found it. */
  lemma BuildStepKeepsLaterFramebuffers(r: Renderer, env: RecreateEnv)
    requires r.g.Valid()
    ensures var p := BuildStep(r, env);
      && (p.reached == FramebufferStage ==> p.r.framebufferCount == p.r.swapchain.imageCount)
      && (p.reached == FramebufferStage && ResultAt(env.framebuffers, 0) != VkSuccess ==>
            forall i: nat :: 1 <= i ==> Get(p.r.t, FramebufferF(i)) == Get(r.t, FramebufferF(i)))
  {
    var r3 := ClearImages(r);
    CreateRenderFinishedTable(r3, env.renderFinished);
    var b := CreateRenderFinished(r3, env.renderFinished);
    if b.res == VkSuccess {
      assert BuildStep(r, env).r == CreateFramebuffers(b.r, env.framebuffers).r;
    }
    if b.res == VkSuccess && b.r.swapchain.imageCount <= MAX_SWAPCHAIN_IMAGES && ResultAt(env.framebuffers, 0) != VkSuccess {
      CreateFramebuffersTable(b.r, env.framebuffers);
      var c := CreateFramebuffers(b.r, env.framebuffers);
      assert c.made == 0;
      forall i: nat | 1 <= i
        ensures Get(c.r.t, FramebufferF(i)) == Get(r.t, FramebufferF(i))
      {
        assert Get(b.r.t, FramebufferF(i)) == Get(r3.t, FramebufferF(i));
      }
    }
  }

  /** The corrected destruction clears what it destroys, so after any
      recreation the next destruction of the framebuffers raises no fault
      and leaves no framebuffer handle behind. */
  lemma RecreateThenDestroyClean(r: Renderer, width: u32, height: u32, env: RecreateEnv)
    requires Owned(r) && |env.swapchain.support.formats| >= 1
    ensures var p := RecreateSwapchain(r, width, height, env);
      var q := DestroyFramebuffers(p.r);
      && q.g.faults == p.r.g.faults
      && forall i: nat :: Get(q.t, FramebufferF(i)) == 0
  {
    RecreateKeeps(r, width, height, env);
    var p := RecreateSwapchain(r, width, height, env);
    DestroyFramebuffersOwned(p.r);
  }
}
