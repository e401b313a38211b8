/** One frame of `renderer/renderer_frame.cpp`: wait for the slot's fence,
    acquire an image, wait for whichever frame still uses that image, reset
    the fence, record, submit and present; and the resize that recreates the
    swapchain when the window has an area. What the driver answers at each
    call is part of the frame's environment; the recorded commands and the
    camera uniforms are floating-point data and are left out. */
module RendererFrame {
  import opened Common
  import opened Ledger
  import Sync
  import Window
  import opened RendererInternal
  import RendererSwapchain

  /** What the driver and the window answer during one frame. */
  datatype FrameEnv = FrameEnv(
    waitRes: VkResult,          // `vk_sync_wait_for_fence`
    acquireRes: VkResult,       // `vkAcquireNextImageKHR`
    imageIndex: nat,            // the image it hands out
    imageFenceRes: VkResult,    // `vkWaitForFences` on the image's fence
    resetRes: VkResult,         // `vk_sync_reset_fence`
    beginRes: VkResult,         // `vk_command_begin`
    endRes: VkResult,           // `vk_command_end`
    submitRes: VkResult,        // `vkQueueSubmit`
    presentRes: VkResult,       // `vkQueuePresentKHR`
    pixelWidth: int, pixelHeight: int,   // the window's size in pixels
    recreate: RendererSwapchain.RecreateEnv)

  datatype Frame = Frame(status: Status, r: Renderer)

  /** What a frame needs of the renderer: the fixed arrays have their
      sizes, and the swapchain's support query lists a format. */
  predicate Ready(r: Renderer, env: FrameEnv) {
    && r.g.Valid() && r.swapchain.imageCount <= MAX_SWAPCHAIN_IMAGES
    && |r.imagesInFlight| == MAX_SWAPCHAIN_IMAGES && r.sync.Valid()
    && |env.recreate.swapchain.support.formats| >= 1
  }

  /** `renderer_resize`. Without a window it fails; with a window of no
      area it only marks the swapchain stale; otherwise it recreates the
      swapchain and clears the mark on success, keeping it on failure. */
  function Resize(r: Renderer, pixelWidth: int, pixelHeight: int, env: RendererSwapchain.RecreateEnv): (f: Frame)
    requires r.g.Valid() && r.swapchain.imageCount <= MAX_SWAPCHAIN_IMAGES && |env.swapchain.support.formats| >= 1
    ensures f.r.g.Valid() && f.r.sync == r.sync && f.r.hasWindow == r.hasWindow
    ensures f.status in {Ok, ErrorGeneric, ErrorVulkan}
    ensures f.status == ErrorGeneric <==> !r.hasWindow
    ensures f.status == ErrorGeneric ==> f.r == r
  {
    if !r.hasWindow then Frame(ErrorGeneric, r)
    else
      var (width, height) := Window.FramebufferSize(pixelWidth, pixelHeight);
      if width == 0 || height == 0 then Frame(Ok, r.(needsRecreation := true))
      else
        var p := RendererSwapchain.RecreateSwapchain(r, width, height, env);
        if p.res != VkSuccess then Frame(ErrorVulkan, p.r)
        else Frame(Ok, p.r.(needsRecreation := false))
  }

  /** `renderer_draw`, with `hasCamera` for the camera pointer being
      non-null. The driver hands out an index below the image count. */
  function Draw(r: Renderer, hasCamera: bool, env: FrameEnv): (f: Frame)
    requires Ready(r, env)
    requires env.acquireRes in {VkSuccess, VkSuboptimal} ==> env.imageIndex < r.swapchain.imageCount
    ensures f.r.g.Valid() && f.r.sync.Valid()
    ensures f.status in {Ok, ErrorGeneric, ErrorVulkan}
  {
    if !hasCamera then Frame(ErrorGeneric, r)
    else if r.needsRecreation then Resize(r, env.pixelWidth, env.pixelHeight, env.recreate)
    else if env.waitRes != VkSuccess then Frame(ErrorVulkan, r)
    else if env.acquireRes == VkErrorOutOfDate then
      Resize(r.(needsRecreation := true), env.pixelWidth, env.pixelHeight, env.recreate)
    else if env.acquireRes != VkSuccess && env.acquireRes != VkSuboptimal then Frame(ErrorVulkan, r)
    else
      var index := env.imageIndex;
      if r.imagesInFlight[index] != NULL_HANDLE && env.imageFenceRes != VkSuccess then Frame(ErrorVulkan, r)
      else
        var (sync, res) := Sync.ResetFence(r.sync, env.resetRes);
        if res != VkSuccess then Frame(ErrorVulkan, r)
        else
          var r1 := r.(sync := sync, imagesInFlight := r.imagesInFlight[index := Get(r.t, InFlightF(r.sync.currentFrame))]);
          if env.beginRes != VkSuccess || env.endRes != VkSuccess || env.submitRes != VkSuccess then Frame(ErrorVulkan, r1)
          else if env.presentRes == VkErrorOutOfDate || env.presentRes == VkSuboptimal then
            Resize(r1.(needsRecreation := true), env.pixelWidth, env.pixelHeight, env.recreate)
          else if env.presentRes != VkSuccess then Frame(ErrorVulkan, r1)
          else Frame(Ok, r1.(sync := Sync.Advance(r1.sync)))
  }

  /** The frame's commands were submitted: every step up to and including
      the submission succeeded. */
  predicate Submitted(r: Renderer, hasCamera: bool, env: FrameEnv)
    requires |r.imagesInFlight| == MAX_SWAPCHAIN_IMAGES
  {
    && hasCamera && !r.needsRecreation
    && env.waitRes == VkSuccess
    && env.acquireRes in {VkSuccess, VkSuboptimal}
    && env.imageIndex < MAX_SWAPCHAIN_IMAGES
    && (r.imagesInFlight[env.imageIndex] == NULL_HANDLE || env.imageFenceRes == VkSuccess)
    && env.resetRes == VkSuccess
    && env.beginRes == VkSuccess && env.endRes == VkSuccess && env.submitRes == VkSuccess
  }

  /** The fence was reset and handed to the image: every step up to the
      reset succeeded. */
  predicate FenceReset(r: Renderer, hasCamera: bool, env: FrameEnv)
    requires |r.imagesInFlight| == MAX_SWAPCHAIN_IMAGES
  {
    && hasCamera && !r.needsRecreation
    && env.waitRes == VkSuccess
    && env.acquireRes in {VkSuccess, VkSuboptimal}
    && env.imageIndex < MAX_SWAPCHAIN_IMAGES
    && (r.imagesInFlight[env.imageIndex] == NULL_HANDLE || env.imageFenceRes == VkSuccess)
    && env.resetRes == VkSuccess
  }

  /** The frame slot moves on exactly when the frame was submitted and
      presented without a stale swapchain; every other path leaves it, and
      every fence's signalled state but the reset one, where it was. */
  lemma DrawAdvances(r: Renderer, hasCamera: bool, env: FrameEnv)
    requires Ready(r, env)
    requires env.acquireRes in {VkSuccess, VkSuboptimal} ==> env.imageIndex < r.swapchain.imageCount
    ensures var f := Draw(r, hasCamera, env);
      && (Submitted(r, hasCamera, env) && env.presentRes == VkSuccess ==>
            f.status == Ok && f.r.sync.currentFrame == (r.sync.currentFrame + 1) % MAX_FRAMES_IN_FLIGHT)
      && (!(Submitted(r, hasCamera, env) && env.presentRes == VkSuccess) ==>
            f.r.sync.currentFrame == r.sync.currentFrame)
  {
  }

  /** Which error a frame reports: a missing camera, or a resize without a
      window, is a generic error; a frame that was not presented and did
      not go through a resize is a Vulkan error. */
  lemma DrawStatus(r: Renderer, hasCamera: bool, env: FrameEnv)
    requires Ready(r, env)
    requires env.acquireRes in {VkSuccess, VkSuboptimal} ==> env.imageIndex < r.swapchain.imageCount
    ensures var f := Draw(r, hasCamera, env);
      && (!hasCamera ==> f == Frame(ErrorGeneric, r))
      && (hasCamera && !r.needsRecreation && env.waitRes != VkSuccess ==> f == Frame(ErrorVulkan, r))
      && (f.status == ErrorGeneric <==> !hasCamera || (!r.hasWindow && Resized(r, hasCamera, env)))
  {
  }

  /** The frame ended in `renderer_resize`: the swapchain was already
      marked stale, or the acquisition or the presentation found it stale. */
  predicate Resized(r: Renderer, hasCamera: bool, env: FrameEnv)
    requires |r.imagesInFlight| == MAX_SWAPCHAIN_IMAGES
  {
    hasCamera &&
      (|| r.needsRecreation
       || (env.waitRes == VkSuccess && env.acquireRes == VkErrorOutOfDate)
       || (Submitted(r, hasCamera, env) && env.presentRes in {VkErrorOutOfDate, VkSuboptimal}))
  }

  /** Once the fence is reset, the image records the current slot's fence
      as the one guarding it, and the other images keep theirs; a frame
      that stops before the reset and does not resize records nothing. */
  lemma DrawRecordsFence(r: Renderer, hasCamera: bool, env: FrameEnv)
    requires Ready(r, env)
    requires env.acquireRes in {VkSuccess, VkSuboptimal} ==> env.imageIndex < r.swapchain.imageCount
    ensures var f := Draw(r, hasCamera, env);
      && (FenceReset(r, hasCamera, env) && !Resized(r, hasCamera, env) ==>
            && f.r.imagesInFlight[env.imageIndex] == Get(r.t, InFlightF(r.sync.currentFrame))
            && (forall i :: 0 <= i < MAX_SWAPCHAIN_IMAGES && i != env.imageIndex ==> f.r.imagesInFlight[i] == r.imagesInFlight[i])
            && !f.r.sync.signaled[r.sync.currentFrame])
      && (!FenceReset(r, hasCamera, env) && !Resized(r, hasCamera, env) ==> f.r == r)
  {
  }

  /** A window with no area: while the swapchain is marked stale every
      frame returns success and touches nothing but the mark. */
  lemma MinimizedIdles(r: Renderer, env: FrameEnv)
    requires Ready(r, env) && r.needsRecreation && r.hasWindow
    requires env.pixelWidth == 0 || env.pixelHeight == 0
    requires env.acquireRes in {VkSuccess, VkSuboptimal} ==> env.imageIndex < r.swapchain.imageCount
    ensures Draw(r, true, env) == Frame(Ok, r)
  {
  }

  /** The stale mark after a resize: set when the window has no area,
      cleared exactly when the recreation succeeded, and kept when it
      failed. */
  lemma ResizeFlag(r: Renderer, pixelWidth: int, pixelHeight: int, env: RendererSwapchain.RecreateEnv)
    requires r.g.Valid() && r.swapchain.imageCount <= MAX_SWAPCHAIN_IMAGES && |env.swapchain.support.formats| >= 1
    requires r.hasWindow
    ensures var f := Resize(r, pixelWidth, pixelHeight, env);
      var (w, h) := Window.FramebufferSize(pixelWidth, pixelHeight);
      && (w == 0 || h == 0 ==> f == Frame(Ok, r.(needsRecreation := true)))
      && (w != 0 && h != 0 ==>
            && (f.status == Ok <==> RendererSwapchain.RecreateSwapchain(r, w, h, env).res == VkSuccess)
            && (f.status == Ok ==> !f.r.needsRecreation)
            && (f.status != Ok ==> f.status == ErrorVulkan && f.r.needsRecreation == r.needsRecreation))
  {
  }

  /** A handle that is null or the fence of one of the two frame slots. */
  predicate Borrowed(t: Table, h: nat) {
    h == NULL_HANDLE || h == Get(t, InFlightF(0)) || h == Get(t, InFlightF(1))
  }

  /** Every entry of the per-image fence array is null or one of the
      frame slots' fences: the array borrows, it does not own. */
  predicate FencesBorrowed(r: Renderer)
    requires |r.imagesInFlight| == MAX_SWAPCHAIN_IMAGES
  {
    forall i :: 0 <= i < MAX_SWAPCHAIN_IMAGES ==> Borrowed(r.t, r.imagesInFlight[i])
  }

  /** A resize keeps the ownership invariant, and with the device and
      surface recorded raises no fault. */
  lemma ResizeKeeps(r: Renderer, pixelWidth: int, pixelHeight: int, env: RendererSwapchain.RecreateEnv)
    requires Owned(r) && |env.swapchain.support.formats| >= 1
    ensures var f := Resize(r, pixelWidth, pixelHeight, env);
      Owned(f.r) && (Parents(r) ==> f.r.g.faults == r.g.faults)
  {
    var f := Resize(r, pixelWidth, pixelHeight, env);
    var (w, h) := Window.FramebufferSize(pixelWidth, pixelHeight);
    if !r.hasWindow {
      assert f.r == r;
    } else if w == 0 || h == 0 {
      assert f.r == r.(needsRecreation := true);
      FlagKeepsOwned(r, true);
    } else {
      RendererSwapchain.RecreateKeeps(r, w, h, env);
      var p := RendererSwapchain.RecreateSwapchain(r, w, h, env);
      if p.res != VkSuccess {
        assert f.r == p.r;
      } else {
        assert f.r == p.r.(needsRecreation := false);
        FlagKeepsOwned(p.r, false);
      }
    }
  }

  /** The recreation flag is not part of the ownership invariant. */
  lemma FlagKeepsOwned(r: Renderer, b: bool)
    ensures Owned(r.(needsRecreation := b)) == Owned(r)
    ensures Parents(r.(needsRecreation := b)) == Parents(r)
    ensures r.(needsRecreation := b).g == r.g
  {
  }

  /** Recreating the swapchain keeps the per-image fences borrowed: it
      either clears them or leaves the frame slots alone. */
  lemma RecreateBorrows(r: Renderer, width: u32, height: u32, env: RendererSwapchain.RecreateEnv)
    requires Owned(r) && FencesBorrowed(r) && |env.swapchain.support.formats| >= 1
    ensures var p := RendererSwapchain.RecreateSwapchain(r, width, height, env);
      && |p.r.imagesInFlight| == MAX_SWAPCHAIN_IMAGES && FencesBorrowed(p.r)
  {
    var p := RendererSwapchain.RecreateSwapchain(r, width, height, env);
    if p.reached == RendererSwapchain.SwapchainStage {
      RendererSwapchain.RecreateKeepsSlots(r, width, height, env);
      BorrowedKept(r.t, p.r.t, r.imagesInFlight);
    } else {
      NullsBorrowed(p.r.t);
    }
  }

  /** Borrowing survives any change of the table that keeps both frame
      slots' fences. */
  lemma BorrowedKept(t0: Table, t1: Table, fences: seq<nat>)
    requires forall f: Field ::
      !f.ImageViewF? && f != SwapchainF && f != RetiredSwapchainF && !f.RenderFinishedF? && !f.FramebufferF? ==>
        Get(t1, f) == Get(t0, f)
    requires forall i :: 0 <= i < |fences| ==> Borrowed(t0, fences[i])
    ensures forall i :: 0 <= i < |fences| ==> Borrowed(t1, fences[i])
  {
    assert Get(t1, InFlightF(0)) == Get(t0, InFlightF(0)) && Get(t1, InFlightF(1)) == Get(t0, InFlightF(1));
  }

  /** The null array borrows nothing. */
  lemma NullsBorrowed(t: Table)
    ensures forall i :: 0 <= i < MAX_SWAPCHAIN_IMAGES ==> Borrowed(t, Nulls(MAX_SWAPCHAIN_IMAGES)[i])
  {
  }

  /** A resize keeps the fence array borrowing. */
  lemma ResizeBorrows(r: Renderer, pixelWidth: int, pixelHeight: int, env: RendererSwapchain.RecreateEnv)
    requires Owned(r) && FencesBorrowed(r) && |env.swapchain.support.formats| >= 1
    ensures |Resize(r, pixelWidth, pixelHeight, env).r.imagesInFlight| == MAX_SWAPCHAIN_IMAGES
    ensures FencesBorrowed(Resize(r, pixelWidth, pixelHeight, env).r)
  {
    var f := Resize(r, pixelWidth, pixelHeight, env);
    if !r.hasWindow {
      assert f.r == r;
    } else {
      var (w, h) := Window.FramebufferSize(pixelWidth, pixelHeight);
      if w == 0 || h == 0 {
        assert f.r == r.(needsRecreation := true);
      } else {
        var p := RendererSwapchain.RecreateSwapchain(r, w, h, env);
        RecreateBorrows(r, w, h, env);
        assert f.r == if p.res != VkSuccess then p.r else p.r.(needsRecreation := false);
      }
    }
  }

  /** A frame keeps the ownership invariant, and with the device and
      surface recorded raises no fault; the per-image fences stay borrowed
      from the frame slots. */
  lemma DrawKeeps(r: Renderer, hasCamera: bool, env: FrameEnv)
    requires Ready(r, env) && Owned(r) && FencesBorrowed(r)
    requires env.acquireRes in {VkSuccess, VkSuboptimal} ==> env.imageIndex < r.swapchain.imageCount
    ensures var f := Draw(r, hasCamera, env);
      && Owned(f.r) && FencesBorrowed(f.r)
      && (Parents(r) ==> f.r.g.faults == r.g.faults)
  {
    var f := Draw(r, hasCamera, env);
    if hasCamera && r.needsRecreation {
      assert f == Resize(r, env.pixelWidth, env.pixelHeight, env.recreate);
      ResizeKeeps(r, env.pixelWidth, env.pixelHeight, env.recreate);
      ResizeBorrows(r, env.pixelWidth, env.pixelHeight, env.recreate);
    } else if hasCamera && env.waitRes == VkSuccess && env.acquireRes == VkErrorOutOfDate {
      var r0 := r.(needsRecreation := true);
      assert f == Resize(r0, env.pixelWidth, env.pixelHeight, env.recreate);
      FlagKeepsOwned(r, true);
      ResizeKeeps(r0, env.pixelWidth, env.pixelHeight, env.recreate);
      ResizeBorrows(r0, env.pixelWidth, env.pixelHeight, env.recreate);
    } else if FenceReset(r, hasCamera, env) {
      var index := env.imageIndex;
      var (sync, _) := Sync.ResetFence(r.sync, env.resetRes);
      var r1 := r.(sync := sync, imagesInFlight := r.imagesInFlight[index := Get(r.t, InFlightF(r.sync.currentFrame))]);
      assert FencesBorrowed(r1) by {
        assert r.sync.currentFrame == 0 || r.sync.currentFrame == 1;
      }
      assert Owned(r1);
      if env.beginRes != VkSuccess || env.endRes != VkSuccess || env.submitRes != VkSuccess {
        assert f.r == r1;
      } else if env.presentRes in {VkErrorOutOfDate, VkSuboptimal} {
        var r2 := r1.(needsRecreation := true);
        assert f == Resize(r2, env.pixelWidth, env.pixelHeight, env.recreate);
        FlagKeepsOwned(r1, true);
        ResizeKeeps(r2, env.pixelWidth, env.pixelHeight, env.recreate);
        ResizeBorrows(r2, env.pixelWidth, env.pixelHeight, env.recreate);
      } else if env.presentRes != VkSuccess {
        assert f.r == r1;
      } else {
        assert f.r == r1.(sync := Sync.Advance(r1.sync));
      }
    } else {
      assert f.r == r;
    }
  }

}
