/** Creation and teardown of a renderer, `renderer_create` and
    `renderer_destroy` of `renderer/renderer_init.cpp`.

    Teardown runs in twelve steps, each destroying one group of objects:
    the meshes, the camera uniforms, the framebuffers, the pipeline, the
    render pass, the command pool, the frame-slot objects, the
    render-finished semaphores, the swapchain with its views, the device,
    the surface and the instance. Every object's children belong to earlier
    steps, so under the lifetime invariant teardown leaves nothing live and
    raises no fault. Creation builds the same objects in the opposite
    direction and, on any failure, runs that teardown. */
module RendererLifetime {
  import opened Common
  import opened Ledger
  import Buffer
  import Device
  import Swapchain
  import Sync
  import opened RendererInternal
  import RendererSwapchain
  import opened RendererInit

  // ---------------------------------------------------------------------
  // The steps of teardown

  /** The step of `renderer_destroy` that destroys a buffer context. */
  function BufferStep(b: BufferSlot): nat {
    match b
    case MeshVertexSlot(_) => 1
    case MeshIndexSlot(_) => 1
    case UniformSlot(_) => 2
    case _ => 0
  }

  /** The step of `renderer_destroy` that destroys the object of field `f`,
      from 1 (the meshes) to 12 (the instance); 0 for the fields a renderer
      holds only in the middle of a call: the retired swapchain, the staging
      buffer and the quad buffers. */
  function Step(f: Field): (k: nat)
    ensures k <= 12
  {
    match f
    case BufferF(b) => BufferStep(b)
    case MemoryF(b) => BufferStep(b)
    case DescriptorPoolF => 2
    case FramebufferF(_) => 3
    case PipelineF => 4
    case RenderPassF => 5
    case CommandPoolF => 6
    case ImageAvailableF(_) => 7
    case FrameFinishedF(_) => 7
    case InFlightF(_) => 7
    case RenderFinishedF(_) => 8
    case SwapchainF => 9
    case ImageViewF(_) => 9
    case DeviceF => 10
    case SurfaceF => 11
    case InstanceF => 12
    case RetiredSwapchainF => 0
  }

  /** Every object is destroyed after all of its children: a child's step
      comes before its parent's, and every device child goes before the
      device. */
  lemma ChildrenFirst(f: Field, p: Field)
    ensures Step(p) >= 1 && DependsOn(KindOf(f), KindOf(p)) ==> Step(f) < Step(p)
    ensures DeviceChild(KindOf(f)) ==> Step(f) <= 9
  {
  }

  /** The table after the first `k` steps of tearing down `r0`: the fields
      of those steps are null, every other field is as in `r0`. */
  ghost predicate Done(t: Table, r0: Renderer, k: nat) {
    forall f :: Get(t, f) == if Step(f) <= k then 0 else Get(r0.t, f)
  }

  /** Before the first step nothing is done: the fields of step 0 are null
      in every renderer that keeps its objects in scope. */
  lemma DoneStart(r0: Renderer)
    requires Scoped(r0)
    ensures Done(r0.t, r0, 0)
  {
    forall f | Step(f) == 0
      ensures Get(r0.t, f) == 0
    {
      assert !InScope(r0, f);
    }
  }

  /** A step that clears its own fields that are in scope, keeps its own
      null fields null and touches nothing else advances the teardown by
      one step. */
  lemma StepDone(t: Table, t1: Table, r0: Renderer, k: nat)
    requires 1 <= k && Scoped(r0) && Done(t, r0, k - 1)
    requires forall f :: Step(f) != k ==> Get(t1, f) == Get(t, f)
    requires forall f :: Step(f) == k && (InScope(r0, f) || Get(t, f) == 0) ==> Get(t1, f) == 0
    ensures Done(t1, r0, k)
  {
    forall f | Step(f) == k && !InScope(r0, f)
      ensures Get(t, f) == 0
    {
      assert Get(r0.t, f) == 0;
    }
  }

  /** Once the first nine steps are done no device child is recorded. */
  lemma DoneNineNoDeviceChildren(t: Table, r0: Renderer)
    requires Done(t, r0, 9)
    ensures NoChildren(t, DeviceK)
  {
    forall f | DependsOn(KindOf(f), DeviceK)
      ensures Get(t, f) == 0
    {
      ChildrenFirst(f, DeviceF);
    }
  }

  /** Without a device nothing of the first ten steps is recorded. */
  lemma NoDeviceDone(r0: Renderer)
    requires Scoped(r0) && Get(r0.t, DeviceF) == 0
    ensures Done(r0.t, r0, 10)
  {
    forall f | Step(f) <= 10
      ensures Get(r0.t, f) == 0
    {
      ChildrenFirst(f, DeviceF);
      if Step(f) == 0 {
        assert !InScope(r0, f);
      } else if f != DeviceF {
        assert DeviceChild(KindOf(f));
      }
    }
  }

  /** The fields of one mesh slot below `n`. */
  predicate MeshBelow(f: Field, n: nat) {
    (f.BufferF? || f.MemoryF?) && (f.buffer.MeshVertexSlot? || f.buffer.MeshIndexSlot?) && f.buffer.mesh < n
  }

  /** Destroying the mesh buffers below the mesh count is step 1. */
  lemma MeshesDone(t: Table, t1: Table, r0: Renderer)
    requires Scoped(r0) && Done(t, r0, 0)
    requires forall f :: Get(t1, f) == if MeshBelow(f, r0.meshCount) then 0 else Get(t, f)
    ensures Done(t1, r0, 1)
  {
    forall f | Step(f) == 1 && InScope(r0, f)
      ensures MeshBelow(f, r0.meshCount)
    {
    }
    StepDone(t, t1, r0, 1);
  }

  /** Clearing every camera field and nothing else is step 2. */
  lemma CameraDone(t: Table, t1: Table, r0: Renderer)
    requires Scoped(r0) && Done(t, r0, 1)
    requires CameraEmpty(t1) && forall f :: !CameraField(f) ==> Get(t1, f) == Get(t, f)
    ensures Done(t1, r0, 2)
  {
    forall f | Step(f) != 2
      ensures Get(t1, f) == Get(t, f)
    {
      assert !CameraField(f);
    }
    forall f | Step(f) == 2 && InScope(r0, f)
      ensures Get(t1, f) == 0
    {
      assert CameraField(f);
    }
    StepDone(t, t1, r0, 2);
  }

  /** Destroying the framebuffers below the count is step 3. */
  lemma FramebuffersDone(t: Table, t1: Table, r0: Renderer)
    requires Scoped(r0) && Done(t, r0, 2)
    requires forall i: nat :: 0 <= i < r0.framebufferCount ==> Get(t1, FramebufferF(i)) == 0
    requires forall f: Field :: !(f.FramebufferF? && f.image < r0.framebufferCount) ==> Get(t1, f) == Get(t, f)
    ensures Done(t1, r0, 3)
  {
    forall f | Step(f) == 3 && InScope(r0, f)
      ensures Get(t1, f) == 0
    {
      assert f == FramebufferF(f.image);
    }
    StepDone(t, t1, r0, 3);
  }

  /** Destroying the object of a field that is alone in its step is that
      step. */
  lemma OneDone(t: Table, t1: Table, r0: Renderer, f: Field)
    requires SingleStep(f) && Scoped(r0) && Done(t, r0, Step(f) - 1)
    requires Get(t1, f) == 0 && forall f' :: f' != f ==> Get(t1, f') == Get(t, f')
    ensures Done(t1, r0, Step(f))
  {
    forall f' | Step(f') == Step(f)
      ensures f' == f
    {
      SingleStepAlone(f, f');
    }
    StepDone(t, t1, r0, Step(f));
  }

  /** Clearing the frame-slot objects is step 7. */
  lemma SyncDone(t: Table, t1: Table, r0: Renderer)
    requires Scoped(r0) && Done(t, r0, 6)
    requires forall f :: f in Sync.SYNC_SET ==> Get(t1, f) == 0
    requires forall f :: f !in Sync.SYNC_SET ==> Get(t1, f) == Get(t, f)
    ensures Done(t1, r0, 7)
  {
    Sync.SyncFieldsFacts();
    forall f | Step(f) != 7
      ensures Get(t1, f) == Get(t, f)
    {
      assert f !in Sync.SYNC_SET;
    }
    forall f | Step(f) == 7 && InScope(r0, f)
      ensures Get(t1, f) == 0
    {
      assert f in Sync.SYNC_SET;
    }
    StepDone(t, t1, r0, 7);
  }

  /** Destroying the semaphores of the images is step 8. */
  lemma RenderFinishedDone(t: Table, t1: Table, r0: Renderer)
    requires Scoped(r0) && Done(t, r0, 7)
    requires forall i: nat :: 0 <= i < r0.swapchain.imageCount ==> Get(t1, RenderFinishedF(i)) == 0
    requires forall f: Field :: !(f.RenderFinishedF? && f.image < r0.swapchain.imageCount) ==> Get(t1, f) == Get(t, f)
    ensures Done(t1, r0, 8)
  {
    forall f | Step(f) == 8 && InScope(r0, f)
      ensures Get(t1, f) == 0
    {
      assert f == RenderFinishedF(f.image);
    }
    StepDone(t, t1, r0, 8);
  }

  /** Clearing the swapchain context is step 9. */
  lemma SwapchainDone(t: Table, t1: Table, r0: Renderer)
    requires Scoped(r0) && Done(t, r0, 8) && r0.swapchain.imageCount <= MAX_SWAPCHAIN_IMAGES
    requires forall f :: f in Swapchain.CONTEXT_SET ==> Get(t1, f) == 0
    requires forall f :: f !in Swapchain.CONTEXT_SET ==> Get(t1, f) == Get(t, f)
    ensures Done(t1, r0, 9)
  {
    Swapchain.ContextSetFacts();
    forall f | Step(f) != 9
      ensures Get(t1, f) == Get(t, f)
    {
      assert f !in Swapchain.CONTEXT_SET;
    }
    forall f | Step(f) == 9 && (InScope(r0, f) || Get(t, f) == 0)
      ensures Get(t1, f) == 0
    {
      if f.ImageViewF? && f.image >= MAX_SWAPCHAIN_IMAGES {
        assert f !in Swapchain.CONTEXT_SET;
      }
    }
    StepDone(t, t1, r0, 9);
  }

  /** After step 8 the views past the image count are null. */
  lemma DoneEightConsistent(t: Table, r0: Renderer)
    requires Scoped(r0) && Done(t, r0, 8) && r0.swapchain.imageCount <= MAX_SWAPCHAIN_IMAGES
    ensures Swapchain.Consistent(t, r0.swapchain)
  {
    forall i | r0.swapchain.imageCount <= i < MAX_SWAPCHAIN_IMAGES
      ensures Get(t, ImageViewF(i)) == 0
    {
      assert !InScope(r0, ImageViewF(i));
    }
  }

  /** After step 10 a surface left alone is null, so step 11 is done. */
  lemma SurfaceSkipDone(t: Table, r0: Renderer)
    requires Scoped(r0) && Done(t, r0, 10) && (Get(t, SurfaceF) == 0 || Get(t, InstanceF) == 0)
    ensures Done(t, r0, 11)
  {
    assert Get(t, InstanceF) == Get(r0.t, InstanceF) && Get(t, SurfaceF) == Get(r0.t, SurfaceF);
    if Get(t, InstanceF) == 0 {
      assert !InScope(r0, SurfaceF);
    }
  }

  /** After steps 10 and 11 the children of the surface and of the
      instance are gone. */
  lemma DoneRootsNoChildren(t: Table, r0: Renderer, k: nat)
    requires 10 <= k <= 11 && Done(t, r0, k)
    ensures NoChildren(t, SurfaceK)
    ensures k == 11 ==> NoChildren(t, InstanceK)
  {
    forall f | DependsOn(KindOf(f), SurfaceK)
      ensures Get(t, f) == 0
    {
      ChildrenFirst(f, SurfaceF);
    }
    if k == 11 {
      forall f | DependsOn(KindOf(f), InstanceK)
        ensures Get(t, f) == 0
      {
        ChildrenFirst(f, InstanceF);
      }
    }
  }

  /** The mesh loop of `renderer_destroy`: for every uploaded mesh, the
      index buffer and then the vertex buffer; the mesh count drops to
      zero. */
  method DestroyMeshes(r: Renderer) returns (p: Renderer)
    requires r.g.Valid()
    ensures p.g.Valid() && p == r.(t := p.t, g := p.g, meshCount := 0)
    ensures forall f :: Get(p.t, f) == if MeshBelow(f, r.meshCount) then 0 else Get(r.t, f)
    ensures Tracks(r.t, r.g) ==> Tracks(p.t, p.g) && p.g.faults == r.g.faults
  {
    p := r;
    for i := 0 to r.meshCount
      invariant p.g.Valid() && p == r.(t := p.t, g := p.g)
      invariant forall f :: Get(p.t, f) == if MeshBelow(f, i) then 0 else Get(r.t, f)
      invariant Tracks(r.t, r.g) ==> Tracks(p.t, p.g) && p.g.faults == r.g.faults
    {
      BufferDestroyKeeps(p.t, p.g, MeshIndexSlot(i));
      var d := Buffer.Destroy(p.t, p.g, MeshIndexSlot(i));
      BufferDestroyKeeps(d.0, d.1, MeshVertexSlot(i));
      var e := Buffer.Destroy(d.0, d.1, MeshVertexSlot(i));
      MeshSlotCleared(r.t, p.t, d.0, e.0, i);
      p := p.(t := e.0, g := e.1);
    }
    p := p.(meshCount := 0);
  }

  /** One turn of the mesh loop clears the fields of mesh `i`. */
  lemma MeshSlotCleared(t0: Table, t: Table, t1: Table, t2: Table, i: nat)
    requires forall f :: Get(t, f) == if MeshBelow(f, i) then 0 else Get(t0, f)
    requires Get(t1, BufferF(MeshIndexSlot(i))) == 0 && Get(t1, MemoryF(MeshIndexSlot(i))) == 0
    requires forall f :: f != BufferF(MeshIndexSlot(i)) && f != MemoryF(MeshIndexSlot(i)) ==> Get(t1, f) == Get(t, f)
    requires Get(t2, BufferF(MeshVertexSlot(i))) == 0 && Get(t2, MemoryF(MeshVertexSlot(i))) == 0
    requires forall f :: f != BufferF(MeshVertexSlot(i)) && f != MemoryF(MeshVertexSlot(i)) ==> Get(t2, f) == Get(t1, f)
    ensures forall f :: Get(t2, f) == if MeshBelow(f, i + 1) then 0 else Get(t0, f)
  {
    forall f
      ensures Get(t2, f) == if MeshBelow(f, i + 1) then 0 else Get(t0, f)
    {
      if MeshBelow(f, i + 1) && !MeshBelow(f, i) {
        assert f.buffer.mesh == i;
        assert f.buffer == MeshIndexSlot(i) || f.buffer == MeshVertexSlot(i);
      }
    }
  }

  /** The objects of the steps that destroy a single field. */
  predicate SingleStep(f: Field) {
    f == PipelineF || f == RenderPassF || f == CommandPoolF || f == DeviceF || f == SurfaceF || f == InstanceF
  }

  /** A step that destroys a single field destroys nothing else. */
  lemma SingleStepAlone(f: Field, f': Field)
    requires SingleStep(f)
    ensures Step(f') == Step(f) ==> f' == f
  {
  }

  /** Destroying the single object of field `f`; a null field is left
      alone. Without children of `f` this raises no fault. */
  method DestroyOne(r: Renderer, f: Field) returns (p: Renderer)
    requires r.g.Valid()
    ensures p.g.Valid() && p == r.(t := p.t, g := p.g)
    ensures Get(p.t, f) == 0 && forall f' :: f' != f ==> Get(p.t, f') == Get(r.t, f')
    ensures Tracks(r.t, r.g) && NoChildren(r.t, KindOf(f)) ==> Tracks(p.t, p.g) && p.g.faults == r.g.faults
  {
    var q := Release(r.t, r.g, f);
    p := r.(t := q.0, g := q.1);
    if Tracks(r.t, r.g) {
      ReleaseKeeps(r.t, r.g, f);
    }
  }

  /** Steps 1 to 3: the meshes, the camera uniforms and the framebuffers. */
  method DestroyBuffers(r: Renderer) returns (p: Renderer)
    requires r.g.Valid() && |r.uniformMapped| == MAX_FRAMES_IN_FLIGHT
    ensures p.g.Valid()
    ensures p == r.(t := p.t, g := p.g, meshCount := 0, uniformMapped := p.uniformMapped, framebufferCount := 0)
    ensures Scoped(r) && Done(r.t, r, 0) ==> Done(p.t, r, 3)
    ensures Tracks(r.t, r.g) ==> Tracks(p.t, p.g) && p.g.faults == r.g.faults
  {
    ghost var pre := Tracks(r.t, r.g);
    ghost var go := Scoped(r) && Done(r.t, r, 0);
    var q := DestroyMeshes(r);
    if go {
      MeshesDone(r.t, q.t, r);
    }
    assert pre ==> Tracks(q.t, q.g) && q.g.faults == r.g.faults;
    var c := DestroyCameraUniforms(q);
    if go {
      CameraDone(q.t, c.t, r);
    }
    assert pre ==> Tracks(c.t, c.g) && c.g.faults == r.g.faults;
    p := RendererSwapchain.DestroyFramebuffers(c);
    if pre {
      RendererSwapchain.DestroyFramebuffersKeeps(c);
    }
    if go {
      FramebuffersDone(c.t, p.t, r);
    }
  }

  /** The device child that step `k`, from 4 to 6, destroys. */
  function LeafOf(k: nat): (f: Field)
    requires 4 <= k <= 6
    ensures SingleStep(f) && DeviceChild(KindOf(f)) && Step(f) == k
  {
    if k == 4 then PipelineF else if k == 5 then RenderPassF else CommandPoolF
  }

  /** Step `k`, from 4 to 6: one device child alone in its step. It never
      raises a fault, since nothing depends on a device child. */
  method DestroyLeaf(r: Renderer, k: nat, ghost r0: Renderer) returns (p: Renderer)
    requires r.g.Valid() && 4 <= k <= 6
    ensures p.g.Valid() && p == r.(t := p.t, g := p.g)
    ensures Get(p.t, LeafOf(k)) == 0
    ensures Scoped(r0) && Done(r.t, r0, k - 1) ==> Done(p.t, r0, k)
    ensures Tracks(r.t, r.g) ==> Tracks(p.t, p.g) && p.g.faults == r.g.faults
  {
    var f := LeafOf(k);
    DeviceChildHasNoChildren(r.t, KindOf(f));
    p := DestroyOne(r, f);
    if Scoped(r0) && Done(r.t, r0, k - 1) {
      OneDone(r.t, p.t, r0, f);
    }
  }

  /** Step 7: the frame-slot objects. */
  method DestroySyncStep(r: Renderer, ghost r0: Renderer) returns (p: Renderer)
    requires r.g.Valid()
    ensures p.g.Valid() && p == r.(t := p.t, g := p.g, sync := Sync.ZERO_STATE)
    ensures Scoped(r0) && Done(r.t, r0, 6) ==> Done(p.t, r0, 7)
    ensures Tracks(r.t, r.g) ==> Tracks(p.t, p.g) && p.g.faults == r.g.faults
  {
    var d := Sync.Destroy(r.t, r.g);
    p := r.(t := d.0, g := d.1, sync := d.2);
    if Tracks(r.t, r.g) {
      Sync.DestroyKeeps(r.t, r.g);
    }
    if Scoped(r0) && Done(r.t, r0, 6) {
      SyncDone(r.t, p.t, r0);
    }
  }

  /** Steps 4 to 7: the pipeline, the render pass, the command pool and the
      frame-slot objects. A pipeline or render-pass context that was never
      allocated has a null handle, so its destroy is skipped either way. */
  method DestroyPipelineToSync(r: Renderer, ghost r0: Renderer) returns (p: Renderer)
    requires r.g.Valid()
    ensures p.g.Valid() && p == r.(t := p.t, g := p.g, sync := Sync.ZERO_STATE)
    ensures Scoped(r0) && Done(r.t, r0, 3) ==> Done(p.t, r0, 7)
    ensures Tracks(r.t, r.g) ==> Tracks(p.t, p.g) && p.g.faults == r.g.faults
  {
    ghost var pre := Tracks(r.t, r.g);
    ghost var go := Scoped(r0) && Done(r.t, r0, 3);
    var a := DestroyLeaf(r, 4, r0);
    assert go ==> Done(a.t, r0, 4);
    assert pre ==> Tracks(a.t, a.g) && a.g.faults == r.g.faults;
    var b := DestroyLeaf(a, 5, r0);
    assert go ==> Done(b.t, r0, 5);
    assert pre ==> Tracks(b.t, b.g) && b.g.faults == r.g.faults;
    var c := DestroyLeaf(b, 6, r0);
    assert go ==> Done(c.t, r0, 6);
    assert pre ==> Tracks(c.t, c.g) && c.g.faults == r.g.faults;
    p := DestroySyncStep(c, r0);
  }

  /** Step 8: the render-finished semaphores of the images. */
  method DestroyRenderFinishedStep(r: Renderer, ghost r0: Renderer) returns (p: Renderer)
    requires r.g.Valid() && r.swapchain.imageCount <= MAX_SWAPCHAIN_IMAGES
    ensures p.g.Valid() && p == r.(t := p.t, g := p.g)
    ensures Scoped(r0) && Done(r.t, r0, 7) && r.swapchain.imageCount == r0.swapchain.imageCount ==>
      Done(p.t, r0, 8)
    ensures Tracks(r.t, r.g) ==> Tracks(p.t, p.g) && p.g.faults == r.g.faults
  {
    p := RendererSwapchain.DestroyRenderFinished(r);
    if Tracks(r.t, r.g) {
      RendererSwapchain.DestroyRenderFinishedKeeps(r);
    }
    if Scoped(r0) && Done(r.t, r0, 7) && r.swapchain.imageCount == r0.swapchain.imageCount {
      RenderFinishedDone(r.t, p.t, r0);
    }
  }

  /** Step 9: the swapchain and its views. Once the render-finished
      semaphores are gone, no view past the image count is recorded, so
      this raises no fault. */
  method DestroySwapchainStep(r: Renderer, ghost r0: Renderer) returns (p: Renderer)
    requires r.g.Valid() && r.swapchain.imageCount <= MAX_SWAPCHAIN_IMAGES
    ensures p.g.Valid() && p == r.(t := p.t, g := p.g, swapchain := Swapchain.ZERO_STATE)
    ensures Scoped(r0) && Done(r.t, r0, 8) && r.swapchain.imageCount == r0.swapchain.imageCount ==>
      Done(p.t, r0, 9)
    ensures Tracks(r.t, r.g) && Scoped(r0) && Done(r.t, r0, 8) && r.swapchain.imageCount == r0.swapchain.imageCount ==>
      Tracks(p.t, p.g) && p.g.faults == r.g.faults
  {
    ghost var go := Scoped(r0) && Done(r.t, r0, 8) && r.swapchain.imageCount == r0.swapchain.imageCount;
    var d := Swapchain.Destroy(r.t, r.g, r.swapchain);
    p := r.(t := d.0, g := d.1, swapchain := d.2);
    if go {
      DoneEightConsistent(r.t, r0);
      SwapchainDone(r.t, p.t, r0);
      if Tracks(r.t, r.g) {
        Swapchain.DestroyKeeps(r.t, r.g, r.swapchain);
      }
    }
  }

  /** Step 10: the device, once none of its children is left. */
  method DestroyDeviceStep(r: Renderer, ghost r0: Renderer) returns (p: Renderer)
    requires r.g.Valid()
    ensures p.g.Valid() && p == r.(t := p.t, g := p.g, fams := Device.NO_FAMILIES)
    ensures Scoped(r0) && Done(r.t, r0, 9) ==> Done(p.t, r0, 10)
    ensures Tracks(r.t, r.g) && Done(r.t, r0, 9) ==> Tracks(p.t, p.g) && p.g.faults == r.g.faults
  {
    if Done(r.t, r0, 9) {
      DoneNineNoDeviceChildren(r.t, r0);
    }
    var c := DestroyOne(r, DeviceF);
    if Scoped(r0) && Done(r.t, r0, 9) {
      OneDone(r.t, c.t, r0, DeviceF);
    }
    p := c.(fams := Device.NO_FAMILIES);
  }

  /** Steps 8 to 10: the render-finished semaphores, the swapchain with
      its views, and the device. */
  method DestroySwapchainToDevice(r: Renderer, ghost r0: Renderer) returns (p: Renderer)
    requires r.g.Valid() && r.swapchain.imageCount <= MAX_SWAPCHAIN_IMAGES
    ensures p.g.Valid() && p == r.(t := p.t, g := p.g, swapchain := Swapchain.ZERO_STATE, fams := Device.NO_FAMILIES)
    ensures Scoped(r0) && Done(r.t, r0, 7) && r.swapchain.imageCount == r0.swapchain.imageCount ==>
      Done(p.t, r0, 10)
    ensures Tracks(r.t, r.g) && Scoped(r0) && Done(r.t, r0, 7) && r.swapchain.imageCount == r0.swapchain.imageCount ==>
      Tracks(p.t, p.g) && p.g.faults == r.g.faults
  {
    ghost var go := Scoped(r0) && Done(r.t, r0, 7) && r.swapchain.imageCount == r0.swapchain.imageCount;
    ghost var pre := Tracks(r.t, r.g) && go;
    var a := DestroyRenderFinishedStep(r, r0);
    assert go ==> Done(a.t, r0, 8);
    assert pre ==> Tracks(a.t, a.g) && a.g.faults == r.g.faults;
    var b := DestroySwapchainStep(a, r0);
    assert go ==> Done(b.t, r0, 9);
    assert pre ==> Tracks(b.t, b.g) && b.g.faults == r.g.faults;
    p := DestroyDeviceStep(b, r0);
  }

  /** Step 11: the surface, destroyed only when it and the instance
      exist. */
  method DestroySurfaceStep(r: Renderer, ghost r0: Renderer) returns (p: Renderer)
    requires r.g.Valid()
    ensures p.g.Valid() && p == r.(t := p.t, g := p.g)
    ensures Scoped(r0) && Done(r.t, r0, 10) ==> Done(p.t, r0, 11)
    ensures Tracks(r.t, r.g) && Done(r.t, r0, 10) ==> Tracks(p.t, p.g) && p.g.faults == r.g.faults
  {
    if Done(r.t, r0, 10) {
      DoneRootsNoChildren(r.t, r0, 10);
    }
    p := r;
    if Get(r.t, SurfaceF) != 0 && Get(r.t, InstanceF) != 0 {
      p := DestroyOne(r, SurfaceF);
      if Scoped(r0) && Done(r.t, r0, 10) {
        OneDone(r.t, p.t, r0, SurfaceF);
      }
    } else if Scoped(r0) && Done(r.t, r0, 10) {
      SurfaceSkipDone(r.t, r0);
    }
  }

  /** Step 12: the instance, when it exists. */
  method DestroyInstanceStep(r: Renderer, ghost r0: Renderer) returns (p: Renderer)
    requires r.g.Valid()
    ensures p.g.Valid() && p == r.(t := p.t, g := p.g)
    ensures Scoped(r0) && Done(r.t, r0, 11) ==> Done(p.t, r0, 12)
    ensures Tracks(r.t, r.g) && Done(r.t, r0, 11) ==> Tracks(p.t, p.g) && p.g.faults == r.g.faults
  {
    if Done(r.t, r0, 11) {
      DoneRootsNoChildren(r.t, r0, 11);
    }
    p := r;
    if Get(r.t, InstanceF) != 0 {
      p := DestroyOne(r, InstanceF);
      if Scoped(r0) && Done(r.t, r0, 11) {
        OneDone(r.t, p.t, r0, InstanceF);
      }
    }
  }

  /** Steps 11 and 12: the surface and the instance. */
  method DestroyRoots(r: Renderer, ghost r0: Renderer) returns (p: Renderer)
    requires r.g.Valid()
    ensures p.g.Valid() && p == r.(t := p.t, g := p.g)
    ensures Scoped(r0) && Done(r.t, r0, 10) ==> Done(p.t, r0, 12)
    ensures Tracks(r.t, r.g) && Scoped(r0) && Done(r.t, r0, 10) ==> Tracks(p.t, p.g) && p.g.faults == r.g.faults
  {
    ghost var go := Scoped(r0) && Done(r.t, r0, 10);
    ghost var pre := Tracks(r.t, r.g) && go;
    var a := DestroySurfaceStep(r, r0);
    assert go ==> Done(a.t, r0, 11);
    assert pre ==> Tracks(a.t, a.g) && a.g.faults == r.g.faults;
    p := DestroyInstanceStep(a, r0);
  }

  /** With all twelve steps done every field is null. */
  lemma DoneAllNull(t: Table, r0: Renderer)
    requires Done(t, r0, 12)
    ensures forall f :: Get(t, f) == 0
  {
  }

  /** `renderer_destroy`: with a device, steps 1 to 10; then the surface
      and the instance; the renderer is zeroed at the end. Under the
      lifetime invariant nothing is left live and no object is destroyed
      while a child of it lives. */
  method Destroy(r: Renderer) returns (p: Renderer)
    requires r.g.Valid() && r.swapchain.imageCount <= MAX_SWAPCHAIN_IMAGES && |r.uniformMapped| == MAX_FRAMES_IN_FLIGHT
    ensures p == Zeroed(p.g) && p.g.Valid()
    ensures Whole(r) ==> p.g.live == map[] && p.g.faults == r.g.faults
  {
    ghost var whole := Whole(r);
    if whole {
      DoneStart(r);
    }
    var q := r;
    if Get(r.t, DeviceF) != 0 {
      var a := DestroyBuffers(r);
      var b := DestroyPipelineToSync(a, r);
      q := DestroySwapchainToDevice(b, r);
    } else if whole {
      NoDeviceDone(r);
    }
    assert whole ==> Done(q.t, r, 10) && Tracks(q.t, q.g) && q.g.faults == r.g.faults;
    q := DestroyRoots(q, r);
    if whole {
      DoneAllNull(q.t, r);
      NullTableNothingLive(q.t, q.g);
    }
    p := Zeroed(q.g);
  }
}
