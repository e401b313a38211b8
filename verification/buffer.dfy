/** Buffers of `renderer/vk_buffer.cpp`: a `VkBufferContext` is a buffer
    handle, a memory handle and a size. The handles live in the renderer's
    handle table under `BufferF(b)` and `MemoryF(b)` for a buffer slot `b`;
    the staging buffer of an upload, a local variable in the source, has a
    slot of its own. Buffer contents are byte sequences kept beside the
    table. */
module Buffer {
  import opened Common
  import opened Ledger

  /** `VkBufferUsageFlagBits` used by the renderer. */
  const USAGE_TRANSFER_SRC: u32 := 0x1
  const USAGE_TRANSFER_DST: u32 := 0x2
  const USAGE_UNIFORM_BUFFER: u32 := 0x10
  const USAGE_INDEX_BUFFER: u32 := 0x40
  const USAGE_VERTEX_BUFFER: u32 := 0x80

  /** `VkMemoryPropertyFlagBits` used by the renderer. */
  const MEMORY_DEVICE_LOCAL: u32 := 0x1
  const MEMORY_HOST_VISIBLE: u32 := 0x2
  const MEMORY_HOST_COHERENT: u32 := 0x4

  /** The arguments of one `vk_buffer_create` call. */
  datatype Request = Request(size: nat, usage: nat, properties: nat)

  /** The staging buffer of an upload: a transfer source in host-visible,
      host-coherent memory (the flag bits are disjoint, so `|` is `+`). */
  function StagingRequest(size: nat): Request {
    Request(size, USAGE_TRANSFER_SRC, MEMORY_HOST_VISIBLE + MEMORY_HOST_COHERENT)
  }

  /** The device-local target of an upload: a transfer destination that is
      also a vertex or an index buffer. */
  function TargetRequest(size: nat, usage: nat): Request {
    Request(size, USAGE_TRANSFER_DST + usage, MEMORY_DEVICE_LOCAL)
  }

  /** What the driver answers during one `vk_buffer_create`: the buffer
      creation result, the memory type `vk_device_find_memory_type` chose for
      the buffer's requirements (`UINT32_MAX` when none fits), the
      allocation result and the bind result. */
  datatype Driver = Driver(createRes: VkResult, memoryType: u32, allocRes: VkResult, bindRes: VkResult)

  /** The result `vk_buffer_create` reports: that of the first step that
      fails, a missing memory type counting as out of device memory. */
  function Verdict(d: Driver): VkResult {
    if d.createRes != VkSuccess then d.createRes
    else if d.memoryType == U32_MAX then VkErrorOutOfDeviceMemory
    else if d.allocRes != VkSuccess then d.allocRes
    else d.bindRes
  }

  /** The outcome of `vk_buffer_create`: the table and device afterwards,
      the size recorded in the context, and the result. */
  datatype Outcome = Outcome(t: Table, g: Gpu, size: nat, res: VkResult)

  /** `vk_buffer_create` with its failure paths nulling what they destroy:
      zeroes the context, records the size, creates the buffer, checks the
      memory type, allocates and binds the memory. A failure destroys what
      this call created and leaves both handles null. */
  function Create(t: Table, g: Gpu, b: BufferSlot, size: nat, d: Driver): (r: Outcome)
    requires g.Valid()
    ensures r.g.Valid() && r.size == size && r.res == Verdict(d)
    ensures r.res == VkSuccess <==> Get(r.t, BufferF(b)) != 0
    ensures r.res == VkSuccess <==> Get(r.t, MemoryF(b)) != 0
    ensures forall f :: f != BufferF(b) && f != MemoryF(b) ==> Get(r.t, f) == Get(t, f)
  {
    var t0 := Zero(t, {BufferF(b), MemoryF(b)});
    var (t1, g1) := Make(t0, g, BufferF(b), d.createRes);
    if d.createRes != VkSuccess then
      Outcome(t1, g1, size, d.createRes)
    else if d.memoryType == U32_MAX then
      var (t2, g2) := Release(t1, g1, BufferF(b));
      Outcome(t2, g2, size, VkErrorOutOfDeviceMemory)
    else
      var (t2, g2) := Make(t1, g1, MemoryF(b), d.allocRes);
      if d.allocRes != VkSuccess then
        var (t3, g3) := Release(t2, g2, BufferF(b));
        Outcome(t3, g3, size, d.allocRes)
      else if d.bindRes != VkSuccess then
        var (t3, g3) := Release(t2, g2, MemoryF(b));
        var (t4, g4) := Release(t3, g3, BufferF(b));
        Outcome(t4, g4, size, d.bindRes)
      else
        Outcome(t2, g2, size, VkSuccess)
  }

  /** What a creation does to the live objects: a failure destroys exactly
      what it created, a success adds a fresh buffer and a fresh memory
      object; with a live device nothing faults. */
  lemma CreateEffects(t: Table, g: Gpu, b: BufferSlot, size: nat, d: Driver)
    requires g.Valid()
    ensures var r := Create(t, g, b, size, d);
      && (r.res != VkSuccess ==> r.g.live == g.live)
      && (r.res == VkSuccess ==>
            var hb := Get(r.t, BufferF(b));
            var hm := Get(r.t, MemoryF(b));
            && hb !in g.live && hm !in g.live && hb != hm
            && r.g.live == g.live[hb := BufferK][hm := MemoryK])
      && (g.AnyLive(DeviceK) ==> r.g.faults == g.faults)
  {
    if d.createRes == VkSuccess {
      if d.memoryType == U32_MAX {
        NoTypeEffects(t, g, b, size, d);
      } else if d.allocRes != VkSuccess {
        AllocFailEffects(t, g, b, size, d);
      } else if d.bindRes != VkSuccess {
        BindFailEffects(t, g, b, size, d);
      } else {
        BoundEffects(t, g, b, size, d);
      }
    }
  }

  lemma NoTypeEffects(t: Table, g: Gpu, b: BufferSlot, size: nat, d: Driver)
    requires g.Valid() && d.createRes == VkSuccess && d.memoryType == U32_MAX
    ensures var r := Create(t, g, b, size, d);
      r.g.live == g.live && (g.AnyLive(DeviceK) ==> r.g.faults == g.faults)
  {
    var t0 := Zero(t, {BufferF(b), MemoryF(b)});
    var (t1, g1) := Make(t0, g, BufferF(b), d.createRes);
    DeviceIsEnough(g, BufferK);
    DeviceChildIsLeaf(g1, BufferK);
  }

  lemma AllocFailEffects(t: Table, g: Gpu, b: BufferSlot, size: nat, d: Driver)
    requires g.Valid() && d.createRes == VkSuccess && d.memoryType != U32_MAX && d.allocRes != VkSuccess
    ensures var r := Create(t, g, b, size, d);
      r.g.live == g.live && (g.AnyLive(DeviceK) ==> r.g.faults == g.faults)
  {
    var t0 := Zero(t, {BufferF(b), MemoryF(b)});
    var (t1, g1) := Make(t0, g, BufferF(b), d.createRes);
    var (t2, g2) := Make(t1, g1, MemoryF(b), d.allocRes);
    DeviceIsEnough(g, BufferK);
    assert Get(t2, BufferF(b)) == Get(t1, BufferF(b));
    DeviceChildIsLeaf(g2, BufferK);
  }

  lemma BindFailEffects(t: Table, g: Gpu, b: BufferSlot, size: nat, d: Driver)
    requires g.Valid() && d.createRes == VkSuccess && d.memoryType != U32_MAX && d.allocRes == VkSuccess
    requires d.bindRes != VkSuccess
    ensures var r := Create(t, g, b, size, d);
      r.g.live == g.live && (g.AnyLive(DeviceK) ==> r.g.faults == g.faults)
  {
    var t0 := Zero(t, {BufferF(b), MemoryF(b)});
    var (t1, g1) := Make(t0, g, BufferF(b), d.createRes);
    var (t2, g2) := Make(t1, g1, MemoryF(b), d.allocRes);
    var hb := Get(t1, BufferF(b));
    DeviceIsEnough(g, BufferK);
    MakeKeepsAnyLive(t0, g, BufferF(b), d.createRes, DeviceK);
    DeviceIsEnough(g1, MemoryK);
    assert Get(t2, BufferF(b)) == hb;
    DeviceChildIsLeaf(g2, MemoryK);
    var (t3, g3) := Release(t2, g2, MemoryF(b));
    assert g3.live == g1.live;
    assert Get(t3, BufferF(b)) == hb;
    DeviceChildIsLeaf(g3, BufferK);
  }

  lemma BoundEffects(t: Table, g: Gpu, b: BufferSlot, size: nat, d: Driver)
    requires g.Valid() && d.createRes == VkSuccess && d.memoryType != U32_MAX && d.allocRes == VkSuccess
    requires d.bindRes == VkSuccess
    ensures var r := Create(t, g, b, size, d);
      var hb := Get(r.t, BufferF(b));
      var hm := Get(r.t, MemoryF(b));
      && hb !in g.live && hm !in g.live && hb != hm
      && r.g.live == g.live[hb := BufferK][hm := MemoryK]
      && (g.AnyLive(DeviceK) ==> r.g.faults == g.faults)
  {
    var t0 := Zero(t, {BufferF(b), MemoryF(b)});
    var (t1, g1) := Make(t0, g, BufferF(b), d.createRes);
    var (t2, g2) := Make(t1, g1, MemoryF(b), d.allocRes);
    DeviceIsEnough(g, BufferK);
    MakeKeepsAnyLive(t0, g, BufferF(b), d.createRes, DeviceK);
    DeviceIsEnough(g1, MemoryK);
    assert Get(t2, BufferF(b)) == Get(t1, BufferF(b));
  }

  /** `vk_buffer_create` as written: the failure paths destroy the buffer
      (and the memory) but leave the destroyed handles in the context. */
  function AsWrittenCreate(t: Table, g: Gpu, b: BufferSlot, size: nat, d: Driver): (r: Outcome)
    requires g.Valid()
    ensures r.g.Valid() && r.size == size && r.res == Verdict(d)
    ensures forall f :: f != BufferF(b) && f != MemoryF(b) ==> Get(r.t, f) == Get(t, f)
    ensures r.g.faults >= g.faults
  {
    var t0 := Zero(t, {BufferF(b), MemoryF(b)});
    var (t1, g1) := Make(t0, g, BufferF(b), d.createRes);
    if d.createRes != VkSuccess then
      Outcome(t1, g1, size, d.createRes)
    else if d.memoryType == U32_MAX then
      Outcome(t1, Free(t1, g1, BufferF(b)), size, VkErrorOutOfDeviceMemory)
    else
      var (t2, g2) := Make(t1, g1, MemoryF(b), d.allocRes);
      if d.allocRes != VkSuccess then
        Outcome(t2, Free(t2, g2, BufferF(b)), size, d.allocRes)
      else if d.bindRes != VkSuccess then
        var g3 := Free(t2, g2, MemoryF(b));
        Outcome(t2, Free(t2, g3, BufferF(b)), size, d.bindRes)
      else
        Outcome(t2, g2, size, VkSuccess)
  }

  /** A failure of the as-written creation leaves the live objects as they
      were, yet, once the buffer was created, its handle in the context:
      the context names an object that no longer exists. */
  lemma AsWrittenFailureDangles(t: Table, g: Gpu, b: BufferSlot, size: nat, d: Driver)
    requires g.Valid() && Verdict(d) != VkSuccess
    ensures var r := AsWrittenCreate(t, g, b, size, d);
      && r.g.live == g.live
      && (d.createRes == VkSuccess ==> Get(r.t, BufferF(b)) != 0 && Get(r.t, BufferF(b)) !in r.g.live)
  {
    if d.createRes == VkSuccess {
      if d.memoryType == U32_MAX {
        AsWrittenNoTypeDangles(t, g, b, size, d);
      } else if d.allocRes != VkSuccess {
        AsWrittenAllocDangles(t, g, b, size, d);
      } else {
        AsWrittenBindDangles(t, g, b, size, d);
      }
    }
  }

  lemma AsWrittenNoTypeDangles(t: Table, g: Gpu, b: BufferSlot, size: nat, d: Driver)
    requires g.Valid() && d.createRes == VkSuccess && d.memoryType == U32_MAX
    ensures var r := AsWrittenCreate(t, g, b, size, d);
      r.g.live == g.live && Get(r.t, BufferF(b)) != 0 && Get(r.t, BufferF(b)) !in r.g.live
  {
    var t0 := Zero(t, {BufferF(b), MemoryF(b)});
    var (t1, g1) := Make(t0, g, BufferF(b), d.createRes);
    assert AsWrittenCreate(t, g, b, size, d).g == Free(t1, g1, BufferF(b));
  }

  lemma AsWrittenAllocDangles(t: Table, g: Gpu, b: BufferSlot, size: nat, d: Driver)
    requires g.Valid() && d.createRes == VkSuccess && d.memoryType != U32_MAX && d.allocRes != VkSuccess
    ensures var r := AsWrittenCreate(t, g, b, size, d);
      r.g.live == g.live && Get(r.t, BufferF(b)) != 0 && Get(r.t, BufferF(b)) !in r.g.live
  {
    var t0 := Zero(t, {BufferF(b), MemoryF(b)});
    var (t1, g1) := Make(t0, g, BufferF(b), d.createRes);
    var (t2, g2) := Make(t1, g1, MemoryF(b), d.allocRes);
    assert Get(t2, BufferF(b)) == Get(t1, BufferF(b));
    assert AsWrittenCreate(t, g, b, size, d) == Outcome(t2, Free(t2, g2, BufferF(b)), size, d.allocRes);
  }

  lemma AsWrittenBindDangles(t: Table, g: Gpu, b: BufferSlot, size: nat, d: Driver)
    requires g.Valid() && d.createRes == VkSuccess && d.memoryType != U32_MAX && d.allocRes == VkSuccess
    requires d.bindRes != VkSuccess
    ensures var r := AsWrittenCreate(t, g, b, size, d);
      r.g.live == g.live && Get(r.t, BufferF(b)) != 0 && Get(r.t, BufferF(b)) !in r.g.live
  {
    var t0 := Zero(t, {BufferF(b), MemoryF(b)});
    var (t1, g1) := Make(t0, g, BufferF(b), d.createRes);
    var (t2, g2) := Make(t1, g1, MemoryF(b), d.allocRes);
    var hb := Get(t1, BufferF(b));
    assert Get(t2, BufferF(b)) == hb;
    var g3 := Free(t2, g2, MemoryF(b));
    assert g3.live == g1.live;
    assert AsWrittenCreate(t, g, b, size, d) == Outcome(t2, Free(t2, g3, BufferF(b)), size, d.bindRes);
  }

  /** `vk_buffer_destroy`: destroys the non-null buffer, frees the non-null
      memory and zeroes the context. */
  function Destroy(t: Table, g: Gpu, b: BufferSlot): (r: (Table, Gpu))
    requires g.Valid()
    ensures r.1.Valid()
    ensures Get(r.0, BufferF(b)) == 0 && Get(r.0, MemoryF(b)) == 0
    ensures forall f :: f != BufferF(b) && f != MemoryF(b) ==> Get(r.0, f) == Get(t, f)
    ensures Get(t, BufferF(b)) == 0 && Get(t, MemoryF(b)) == 0 ==> r.1 == g
  {
    var (t1, g1) := Release(t, g, BufferF(b));
    Release(t1, g1, MemoryF(b))
  }

  /** A second destroy does nothing. */
  lemma DestroyIdempotent(t: Table, g: Gpu, b: BufferSlot)
    requires g.Valid()
    ensures var (t1, g1) := Destroy(t, g, b); Destroy(t1, g1, b).1 == g1
  {
  }

  /** Creating a buffer and destroying it again, whatever failed in
      between, leaves the live objects as they were; with a live device,
      nothing faults. */
  lemma CreateDestroyBalanced(t: Table, g: Gpu, b: BufferSlot, size: nat, d: Driver)
    requires g.Valid()
    ensures var c := Create(t, g, b, size, d);
      var (_, g2) := Destroy(c.t, c.g, b);
      g2.live == g.live && (g.AnyLive(DeviceK) ==> g2.faults == g.faults)
  {
    var c := Create(t, g, b, size, d);
    CreateEffects(t, g, b, size, d);
    if c.res == VkSuccess {
      DestroyFresh(g, c.t, c.g, b);
    }
  }

  /** Destroying a buffer context whose two objects are the only ones
      created since `g` leaves live what was live in `g`, without faults. */
  lemma DestroyFresh(g: Gpu, t: Table, c: Gpu, b: BufferSlot)
    requires c.Valid()
    requires Get(t, BufferF(b)) !in g.live && Get(t, MemoryF(b)) !in g.live
    requires Get(t, BufferF(b)) != Get(t, MemoryF(b))
    requires c.live == g.live[Get(t, BufferF(b)) := BufferK][Get(t, MemoryF(b)) := MemoryK]
    ensures Destroy(t, c, b).1.live == g.live && Destroy(t, c, b).1.faults == c.faults
  {
    var hb := Get(t, BufferF(b));
    var hm := Get(t, MemoryF(b));
    var (t1, g1) := Release(t, c, BufferF(b));
    DeviceChildIsLeaf(c, BufferK);
    assert Get(t1, MemoryF(b)) == hm;
    assert g1.live == g.live[hm := MemoryK];
    DeviceChildIsLeaf(g1, MemoryK);
  }

  /** The failure paths of `vk_buffer_create` leave a destroyed buffer in
      the context, so the `vk_buffer_destroy` that follows, as in the
      camera-uniform rollback of `renderer_init.cpp`, destroys it a second
      time. */
  lemma AsWrittenFailureDoubleDestroys(t: Table, g: Gpu, b: BufferSlot, size: nat, d: Driver)
    requires g.Valid()
    requires d.createRes == VkSuccess && Verdict(d) != VkSuccess
    ensures var c := AsWrittenCreate(t, g, b, size, d);
      Destroy(c.t, c.g, b).1.faults > c.g.faults
  {
    var c := AsWrittenCreate(t, g, b, size, d);
    var hb := Get(c.t, BufferF(b));
    var g1 := Release(c.t, c.g, BufferF(b)).1;
    assert g1.faults == c.g.faults + 1;
    var hm := Get(c.t, MemoryF(b));
    if hm != 0 {
      assert Get(Release(c.t, c.g, BufferF(b)).0, MemoryF(b)) == hm;
    }
  }

  /** The concrete case: the buffer is created and no memory type fits. */
  lemma AsWrittenNoMemoryTypeDoubleDestroys(g: Gpu, b: BufferSlot)
    requires g.Valid()
    ensures var c := AsWrittenCreate(map[], g, b, 64, Driver(VkSuccess, U32_MAX, VkSuccess, VkSuccess));
      c.res == VkErrorOutOfDeviceMemory && Destroy(c.t, c.g, b).1.faults == c.g.faults + 1
  {
    var d := Driver(VkSuccess, U32_MAX, VkSuccess, VkSuccess);
    var c := AsWrittenCreate(map[], g, b, 64, d);
    AsWrittenFailureDoubleDestroys(map[], g, b, 64, d);
    assert Get(c.t, MemoryF(b)) == 0;
  }

  /** `vk_buffer_copy_data`: maps the memory and copies `size` bytes of
      `data` to its start; a failed map copies nothing. */
  function CopyData(contents: seq<bv8>, data: seq<bv8>, size: nat, mapRes: VkResult): (r: (seq<bv8>, VkResult))
    requires size <= |data| && size <= |contents|
    ensures r.1 == mapRes && |r.0| == |contents|
    ensures mapRes != VkSuccess ==> r.0 == contents
    ensures mapRes == VkSuccess ==> r.0[..size] == data[..size] && r.0[size..] == contents[size..]
  {
    if mapRes != VkSuccess then (contents, mapRes)
    else (data[..size] + contents[size..], VkSuccess)
  }

  /** What the driver answers during a staged upload. */
  datatype Upload = Upload(staging: Driver, mapRes: VkResult, target: Driver, copyRes: VkResult)

  /** The result of a staged upload: that of its first failing step. */
  function UploadVerdict(u: Upload): VkResult {
    if Verdict(u.staging) != VkSuccess then Verdict(u.staging)
    else if u.mapRes != VkSuccess then u.mapRes
    else if Verdict(u.target) != VkSuccess then Verdict(u.target)
    else u.copyRes
  }

  /** The outcome of a staged upload: the table and device afterwards, the
      result, the buffer requests made in order, and the target's contents. */
  datatype Staged = Staged(t: Table, g: Gpu, res: VkResult, requests: seq<Request>, contents: seq<bv8>)

  /** Field `f` belongs neither to the target nor to the staging buffer. */
  predicate Outside(f: Field, target: BufferSlot) {
    f != BufferF(target) && f != MemoryF(target) && f != BufferF(StagingSlot) && f != MemoryF(StagingSlot)
  }

  /** `vk_buffer_create_vertex` and `vk_buffer_create_index`, which differ
      only in the target's usage bit: a host-visible staging buffer is
      created and filled, a device-local target is created, the staging
      buffer is copied into it and destroyed. A failure before the target's
      creation leaves the target context as it was; a later one leaves it
      null. Fresh memory reads as zeros. */
  function CreateStaged(t: Table, g: Gpu, target: BufferSlot, usage: nat, data: seq<bv8>, size: nat, u: Upload): (r: Staged)
    requires g.Valid() && target != StagingSlot && size <= |data|
    ensures r.g.Valid() && r.res == UploadVerdict(u)
    ensures 1 <= |r.requests| <= 2 && r.requests[0] == StagingRequest(size)
    ensures |r.requests| == 2 <==> Verdict(u.staging) == VkSuccess && u.mapRes == VkSuccess
    ensures |r.requests| == 2 ==> r.requests[1] == TargetRequest(size, usage)
    ensures r.res == VkSuccess ==> r.contents == data[..size]
  {
    var s := Create(t, g, StagingSlot, size, u.staging);
    if s.res != VkSuccess then
      Staged(s.t, s.g, s.res, [StagingRequest(size)], [])
    else if u.mapRes != VkSuccess then
      var (t1, g1) := Destroy(s.t, s.g, StagingSlot);
      Staged(t1, g1, u.mapRes, [StagingRequest(size)], [])
    else
      var filled := CopyData(seq(size, _ => 0), data, size, u.mapRes).0;
      Transfer(s.t, s.g, target, usage, filled[..size], size, u)
  }

  /** The second half of an upload, once the staging buffer holds the
      data: creates the target, copies into it, destroys the staging buffer
      and, when the copy failed, the target too. */
  function Transfer(t: Table, g: Gpu, target: BufferSlot, usage: nat, staged: seq<bv8>, size: nat, u: Upload): (r: Staged)
    requires g.Valid() && target != StagingSlot && |staged| == size
    ensures r.g.Valid()
    ensures r.res == (if Verdict(u.target) != VkSuccess then Verdict(u.target) else u.copyRes)
    ensures r.requests == [StagingRequest(size), TargetRequest(size, usage)]
    ensures r.res == VkSuccess ==> r.contents == staged
  {
    var c := Create(t, g, target, size, u.target);
    var reqs := [StagingRequest(size), TargetRequest(size, usage)];
    var (t1, g1) := Destroy(c.t, c.g, StagingSlot);
    if c.res != VkSuccess then
      Staged(t1, g1, c.res, reqs, [])
    else if u.copyRes != VkSuccess then
      var (t2, g2) := Destroy(t1, g1, target);
      Staged(t2, g2, u.copyRes, reqs, [])
    else
      Staged(t1, g1, VkSuccess, reqs, staged)
  }

  /** After the second half of an upload the staging buffer is null, the
      target is set exactly when the upload succeeded, and nothing else in
      the table moved. */
  lemma TransferFields(t: Table, g: Gpu, target: BufferSlot, usage: nat, staged: seq<bv8>, size: nat, u: Upload)
    requires g.Valid() && target != StagingSlot && |staged| == size
    ensures var r := Transfer(t, g, target, usage, staged, size, u);
      && (r.res == VkSuccess ==> Get(r.t, BufferF(target)) != 0 && Get(r.t, MemoryF(target)) != 0)
      && (r.res != VkSuccess ==> Get(r.t, BufferF(target)) == 0 && Get(r.t, MemoryF(target)) == 0)
      && Get(r.t, BufferF(StagingSlot)) == 0 && Get(r.t, MemoryF(StagingSlot)) == 0
      && forall f :: Outside(f, target) ==> Get(r.t, f) == Get(t, f)
  {
    var c := Create(t, g, target, size, u.target);
    var (t1, g1) := Destroy(c.t, c.g, StagingSlot);
    assert Get(t1, BufferF(target)) == Get(c.t, BufferF(target));
    assert Get(t1, MemoryF(target)) == Get(c.t, MemoryF(target));
    assert forall f :: Outside(f, target) ==> Get(t1, f) == Get(t, f);
    if c.res == VkSuccess && u.copyRes != VkSuccess {
      CopyFailedFields(t1, g1, target);
    }
  }

  /** Destroying the target after a failed copy nulls it and nothing else. */
  lemma CopyFailedFields(t: Table, g: Gpu, target: BufferSlot)
    requires g.Valid() && target != StagingSlot
    ensures var (t2, _) := Destroy(t, g, target);
      && Get(t2, BufferF(target)) == 0 && Get(t2, MemoryF(target)) == 0
      && Get(t2, BufferF(StagingSlot)) == Get(t, BufferF(StagingSlot))
      && Get(t2, MemoryF(StagingSlot)) == Get(t, MemoryF(StagingSlot))
      && forall f :: Outside(f, target) ==> Get(t2, f) == Get(t, f)
  {
  }

  /** After an upload the staging buffer is null; the target is set when
      the upload succeeded, null when it failed after the target's creation
      was attempted, and untouched when it failed before; nothing else in
      the table moved. */
  lemma StagedFields(t: Table, g: Gpu, target: BufferSlot, usage: nat, data: seq<bv8>, size: nat, u: Upload)
    requires g.Valid() && target != StagingSlot && size <= |data|
    ensures var r := CreateStaged(t, g, target, usage, data, size, u);
      && (r.res == VkSuccess ==> Get(r.t, BufferF(target)) != 0 && Get(r.t, MemoryF(target)) != 0)
      && (|r.requests| == 1 ==>
            Get(r.t, BufferF(target)) == Get(t, BufferF(target)) && Get(r.t, MemoryF(target)) == Get(t, MemoryF(target)))
      && (|r.requests| == 2 && r.res != VkSuccess ==> Get(r.t, BufferF(target)) == 0 && Get(r.t, MemoryF(target)) == 0)
      && Get(r.t, BufferF(StagingSlot)) == 0 && Get(r.t, MemoryF(StagingSlot)) == 0
      && forall f :: Outside(f, target) ==> Get(r.t, f) == Get(t, f)
  {
    StagedTargetFields(t, g, target, usage, data, size, u);
    StagedOtherFields(t, g, target, usage, data, size, u);
  }

  /** The target half of `StagedFields`. */
  lemma StagedTargetFields(t: Table, g: Gpu, target: BufferSlot, usage: nat, data: seq<bv8>, size: nat, u: Upload)
    requires g.Valid() && target != StagingSlot && size <= |data|
    ensures var r := CreateStaged(t, g, target, usage, data, size, u);
      && (r.res == VkSuccess ==> Get(r.t, BufferF(target)) != 0 && Get(r.t, MemoryF(target)) != 0)
      && (|r.requests| == 1 ==>
            Get(r.t, BufferF(target)) == Get(t, BufferF(target)) && Get(r.t, MemoryF(target)) == Get(t, MemoryF(target)))
      && (|r.requests| == 2 && r.res != VkSuccess ==> Get(r.t, BufferF(target)) == 0 && Get(r.t, MemoryF(target)) == 0)
  {
    var s := Create(t, g, StagingSlot, size, u.staging);
    if s.res == VkSuccess && u.mapRes == VkSuccess {
      var filled := CopyData(seq(size, _ => 0), data, size, u.mapRes).0;
      TransferFields(s.t, s.g, target, usage, filled[..size], size, u);
    }
  }

  /** The staging and untouched half of `StagedFields`. */
  lemma StagedOtherFields(t: Table, g: Gpu, target: BufferSlot, usage: nat, data: seq<bv8>, size: nat, u: Upload)
    requires g.Valid() && target != StagingSlot && size <= |data|
    ensures var r := CreateStaged(t, g, target, usage, data, size, u);
      && Get(r.t, BufferF(StagingSlot)) == 0 && Get(r.t, MemoryF(StagingSlot)) == 0
      && forall f :: Outside(f, target) ==> Get(r.t, f) == Get(t, f)
  {
    var s := Create(t, g, StagingSlot, size, u.staging);
    if s.res == VkSuccess && u.mapRes == VkSuccess {
      var filled := CopyData(seq(size, _ => 0), data, size, u.mapRes).0;
      TransferFields(s.t, s.g, target, usage, filled[..size], size, u);
    }
  }

  /** A creation never destroys an object that was live before it. */
  lemma CreateSparesLive(t: Table, g: Gpu, b: BufferSlot, size: nat, d: Driver, h: nat)
    requires g.Valid() && h in g.live
    ensures var r := Create(t, g, b, size, d);
      DestroyCalls(r.g.log, h) == DestroyCalls(g.log, h) && h in r.g.live
  {
    CreateEffects(t, g, b, size, d);
    var t0 := Zero(t, {BufferF(b), MemoryF(b)});
    var (t1, g1) := Make(t0, g, BufferF(b), d.createRes);
    MakeCalls(t0, g, BufferF(b), d.createRes, h);
    if d.createRes == VkSuccess {
      assert Get(t1, BufferF(b)) != h;
      if d.memoryType == U32_MAX {
        ReleaseCalls(t1, g1, BufferF(b), h);
      } else {
        var (t2, g2) := Make(t1, g1, MemoryF(b), d.allocRes);
        MakeCalls(t1, g1, MemoryF(b), d.allocRes, h);
        assert Get(t2, BufferF(b)) == Get(t1, BufferF(b));
        if d.allocRes != VkSuccess {
          ReleaseCalls(t2, g2, BufferF(b), h);
        } else if d.bindRes != VkSuccess {
          assert h in g1.live && Get(t2, MemoryF(b)) != h;
          var (t3, g3) := Release(t2, g2, MemoryF(b));
          ReleaseCalls(t2, g2, MemoryF(b), h);
          ReleaseCalls(t3, g3, BufferF(b), h);
        }
      }
    }
  }

  /** Once the staging buffer and its memory exist, every path of the
      upload destroys each of them exactly once, and neither stays live. */
  lemma StagingDestroyedOnce(t: Table, g: Gpu, target: BufferSlot, usage: nat, data: seq<bv8>, size: nat, u: Upload)
    requires g.Valid() && target != StagingSlot && size <= |data|
    requires Verdict(u.staging) == VkSuccess
    ensures var s := Create(t, g, StagingSlot, size, u.staging);
      var r := CreateStaged(t, g, target, usage, data, size, u);
      var hb := Get(s.t, BufferF(StagingSlot));
      var hm := Get(s.t, MemoryF(StagingSlot));
      && DestroyCalls(r.g.log, hb) == DestroyCalls(s.g.log, hb) + 1
      && DestroyCalls(r.g.log, hm) == DestroyCalls(s.g.log, hm) + 1
      && hb !in r.g.live && hm !in r.g.live
  {
    var s := Create(t, g, StagingSlot, size, u.staging);
    CreateEffects(t, g, StagingSlot, size, u.staging);
    var hb := Get(s.t, BufferF(StagingSlot));
    var hm := Get(s.t, MemoryF(StagingSlot));
    if u.mapRes != VkSuccess {
      DestroyStaging(s.t, s.g, hb, hm);
    } else {
      var filled := CopyData(seq(size, _ => 0), data, size, u.mapRes).0;
      TransferDestroysStagingOnce(s.t, s.g, target, usage, filled[..size], size, u, hb, hm);
    }
  }

  /** The second half of an upload destroys the live staging buffer and
      memory exactly once each. */
  lemma TransferDestroysStagingOnce(t: Table, g: Gpu, target: BufferSlot, usage: nat, staged: seq<bv8>, size: nat, u: Upload,
                                    hb: nat, hm: nat)
    requires g.Valid() && target != StagingSlot && |staged| == size
    requires Get(t, BufferF(StagingSlot)) == hb && Get(t, MemoryF(StagingSlot)) == hm
    requires hb in g.live && hm in g.live && hb != hm
    ensures var r := Transfer(t, g, target, usage, staged, size, u);
      && DestroyCalls(r.g.log, hb) == DestroyCalls(g.log, hb) + 1
      && DestroyCalls(r.g.log, hm) == DestroyCalls(g.log, hm) + 1
      && hb !in r.g.live && hm !in r.g.live
  {
    var c := Create(t, g, target, size, u.target);
    CreateEffects(t, g, target, size, u.target);
    CreateSparesLive(t, g, target, size, u.target, hb);
    CreateSparesLive(t, g, target, size, u.target, hm);
    assert Get(c.t, BufferF(StagingSlot)) == hb && Get(c.t, MemoryF(StagingSlot)) == hm;
    DestroyStagingThenTarget(c.t, c.g, target, hb, hm, c.res == VkSuccess && u.copyRes != VkSuccess);
  }

  /** Destroying the live staging objects, and then possibly a target that
      holds neither of them, names each staging object once. */
  lemma DestroyStagingThenTarget(t: Table, g: Gpu, target: BufferSlot, hb: nat, hm: nat, alsoTarget: bool)
    requires g.Valid() && target != StagingSlot
    requires Get(t, BufferF(StagingSlot)) == hb && Get(t, MemoryF(StagingSlot)) == hm
    requires hb in g.live && hm in g.live && hb != hm
    requires Get(t, BufferF(target)) !in {hb, hm} && Get(t, MemoryF(target)) !in {hb, hm}
    ensures var (t1, g1) := Destroy(t, g, StagingSlot);
      var g2 := if alsoTarget then Destroy(t1, g1, target).1 else g1;
      && DestroyCalls(g2.log, hb) == DestroyCalls(g.log, hb) + 1
      && DestroyCalls(g2.log, hm) == DestroyCalls(g.log, hm) + 1
      && hb !in g2.live && hm !in g2.live
  {
    DestroyStaging(t, g, hb, hm);
    var (t1, g1) := Destroy(t, g, StagingSlot);
    if alsoTarget {
      assert Get(t1, BufferF(target)) == Get(t, BufferF(target));
      assert Get(t1, MemoryF(target)) == Get(t, MemoryF(target));
      TargetDestroySpares(t1, g1, target, hb);
      TargetDestroySpares(t1, g1, target, hm);
    }
  }

  /** Destroying the target names no other handle. */
  lemma TargetDestroySpares(t: Table, g: Gpu, target: BufferSlot, h: nat)
    requires g.Valid() && target != StagingSlot
    requires Get(t, BufferF(target)) != h && Get(t, MemoryF(target)) != h
    ensures var (_, g2) := Destroy(t, g, target);
      DestroyCalls(g2.log, h) == DestroyCalls(g.log, h) && (h !in g.live ==> h !in g2.live)
  {
    var tm := Get(t, MemoryF(target));
    var (t2, g2) := Release(t, g, BufferF(target));
    ReleaseCalls(t, g, BufferF(target), h);
    assert Get(t2, MemoryF(target)) == tm;
    ReleaseCalls(t2, g2, MemoryF(target), h);
  }

  /** Destroying a live staging buffer and its live memory names each once. */
  lemma DestroyStaging(t: Table, g: Gpu, hb: nat, hm: nat)
    requires g.Valid()
    requires Get(t, BufferF(StagingSlot)) == hb && Get(t, MemoryF(StagingSlot)) == hm
    requires hb in g.live && hm in g.live && hb != hm
    ensures var (_, g2) := Destroy(t, g, StagingSlot);
      && DestroyCalls(g2.log, hb) == DestroyCalls(g.log, hb) + 1
      && DestroyCalls(g2.log, hm) == DestroyCalls(g.log, hm) + 1
      && hb !in g2.live && hm !in g2.live
  {
    var (t1, g1) := Release(t, g, BufferF(StagingSlot));
    ReleaseCalls(t, g, BufferF(StagingSlot), hb);
    ReleaseCalls(t, g, BufferF(StagingSlot), hm);
    assert Get(t1, MemoryF(StagingSlot)) == hm;
    ReleaseCalls(t1, g1, MemoryF(StagingSlot), hb);
    ReleaseCalls(t1, g1, MemoryF(StagingSlot), hm);
  }

  /** Destroying a live buffer and its live memory removes exactly those
      two objects, raises no fault and keeps a live device live. */
  lemma DestroyLive(t: Table, g: Gpu, b: BufferSlot)
    requires g.Valid()
    requires Get(t, BufferF(b)) in g.live && Get(t, MemoryF(b)) in g.live
    requires g.live[Get(t, BufferF(b))] == BufferK && g.live[Get(t, MemoryF(b))] == MemoryK
    ensures var (_, g2) := Destroy(t, g, b);
      && g2.live.Keys == g.live.Keys - {Get(t, BufferF(b)), Get(t, MemoryF(b))}
      && g2.faults == g.faults
      && (g.AnyLive(DeviceK) ==> g2.AnyLive(DeviceK))
  {
    var hb := Get(t, BufferF(b));
    var hm := Get(t, MemoryF(b));
    var (t1, g1) := Release(t, g, BufferF(b));
    DeviceChildIsLeaf(g, BufferK);
    assert Get(t1, MemoryF(b)) == hm;
    var (t2, g2) := Release(t1, g1, MemoryF(b));
    DeviceChildIsLeaf(g1, MemoryK);
    if g.AnyLive(DeviceK) {
      var h :| h in g.live && g.live[h] == DeviceK;
      assert h in g2.live;
    }
  }

  /** The second half of an upload leaves live exactly what was live
      before, less the staging objects, plus the target's two objects when
      it succeeds; with a live device nothing faults. */
  lemma TransferLive(t: Table, g: Gpu, target: BufferSlot, usage: nat, staged: seq<bv8>, size: nat, u: Upload,
                     hb: nat, hm: nat)
    requires g.Valid() && target != StagingSlot && |staged| == size
    requires Get(t, BufferF(StagingSlot)) == hb && Get(t, MemoryF(StagingSlot)) == hm
    requires hb in g.live && hm in g.live && g.live[hb] == BufferK && g.live[hm] == MemoryK
    ensures var r := Transfer(t, g, target, usage, staged, size, u);
      && (r.res != VkSuccess ==> r.g.live.Keys == g.live.Keys - {hb, hm})
      && (r.res == VkSuccess ==>
            r.g.live.Keys == g.live.Keys - {hb, hm} + {Get(r.t, BufferF(target)), Get(r.t, MemoryF(target))})
      && (g.AnyLive(DeviceK) ==> r.g.faults == g.faults)
  {
    if Verdict(u.target) != VkSuccess {
      TargetFailedLive(t, g, target, usage, staged, size, u, hb, hm);
    } else if u.copyRes != VkSuccess {
      CopyFailedLive(t, g, target, usage, staged, size, u, hb, hm);
    } else {
      TransferOkLive(t, g, target, usage, staged, size, u, hb, hm);
    }
  }

  lemma TargetFailedLive(t: Table, g: Gpu, target: BufferSlot, usage: nat, staged: seq<bv8>, size: nat, u: Upload,
                         hb: nat, hm: nat)
    requires g.Valid() && target != StagingSlot && |staged| == size
    requires Get(t, BufferF(StagingSlot)) == hb && Get(t, MemoryF(StagingSlot)) == hm
    requires hb in g.live && hm in g.live && g.live[hb] == BufferK && g.live[hm] == MemoryK
    requires Verdict(u.target) != VkSuccess
    ensures var r := Transfer(t, g, target, usage, staged, size, u);
      && r.g.live.Keys == g.live.Keys - {hb, hm}
      && (g.AnyLive(DeviceK) ==> r.g.faults == g.faults)
  {
    var c := Create(t, g, target, size, u.target);
    CreateEffects(t, g, target, size, u.target);
    assert Get(c.t, BufferF(StagingSlot)) == hb && Get(c.t, MemoryF(StagingSlot)) == hm;
    DestroyLive(c.t, c.g, StagingSlot);
  }

  lemma CopyFailedLive(t: Table, g: Gpu, target: BufferSlot, usage: nat, staged: seq<bv8>, size: nat, u: Upload,
                       hb: nat, hm: nat)
    requires g.Valid() && target != StagingSlot && |staged| == size
    requires Get(t, BufferF(StagingSlot)) == hb && Get(t, MemoryF(StagingSlot)) == hm
    requires hb in g.live && hm in g.live && g.live[hb] == BufferK && g.live[hm] == MemoryK
    requires Verdict(u.target) == VkSuccess && u.copyRes != VkSuccess
    ensures var r := Transfer(t, g, target, usage, staged, size, u);
      && r.g.live.Keys == g.live.Keys - {hb, hm}
      && (g.AnyLive(DeviceK) ==> r.g.faults == g.faults)
  {
    var c := Create(t, g, target, size, u.target);
    CreateEffects(t, g, target, size, u.target);
    assert Get(c.t, BufferF(StagingSlot)) == hb && Get(c.t, MemoryF(StagingSlot)) == hm;
    var (t1, g1) := Destroy(c.t, c.g, StagingSlot);
    var (t2, g2) := Destroy(t1, g1, target);
    assert Transfer(t, g, target, usage, staged, size, u).g == g2;
    DestroyBothLive(g, c.t, c.g, target, hb, hm);
  }

  /** Destroying the staging buffer and then the freshly created target
      leaves live what was live before the target's creation, less the
      staging objects. */
  lemma DestroyBothLive(g: Gpu, t: Table, c: Gpu, target: BufferSlot, hb: nat, hm: nat)
    requires g.Valid() && c.Valid() && target != StagingSlot
    requires Get(t, BufferF(StagingSlot)) == hb && Get(t, MemoryF(StagingSlot)) == hm
    requires hb in g.live && hm in g.live && g.live[hb] == BufferK && g.live[hm] == MemoryK
    requires Get(t, BufferF(target)) !in g.live && Get(t, MemoryF(target)) !in g.live
    requires Get(t, BufferF(target)) != Get(t, MemoryF(target))
    requires c.live == g.live[Get(t, BufferF(target)) := BufferK][Get(t, MemoryF(target)) := MemoryK]
    requires g.AnyLive(DeviceK) ==> c.faults == g.faults
    ensures var (t1, g1) := Destroy(t, c, StagingSlot);
      var (_, g2) := Destroy(t1, g1, target);
      g2.live.Keys == g.live.Keys - {hb, hm} && (g.AnyLive(DeviceK) ==> g2.faults == g.faults)
  {
    DestroyLive(t, c, StagingSlot);
    var (t1, g1) := Destroy(t, c, StagingSlot);
    assert Get(t1, BufferF(target)) == Get(t, BufferF(target));
    assert Get(t1, MemoryF(target)) == Get(t, MemoryF(target));
    DestroyLive(t1, g1, target);
  }

  lemma TransferOkLive(t: Table, g: Gpu, target: BufferSlot, usage: nat, staged: seq<bv8>, size: nat, u: Upload,
                       hb: nat, hm: nat)
    requires g.Valid() && target != StagingSlot && |staged| == size
    requires Get(t, BufferF(StagingSlot)) == hb && Get(t, MemoryF(StagingSlot)) == hm
    requires hb in g.live && hm in g.live && g.live[hb] == BufferK && g.live[hm] == MemoryK
    requires Verdict(u.target) == VkSuccess && u.copyRes == VkSuccess
    ensures var r := Transfer(t, g, target, usage, staged, size, u);
      && r.g.live.Keys == g.live.Keys - {hb, hm} + {Get(r.t, BufferF(target)), Get(r.t, MemoryF(target))}
      && (g.AnyLive(DeviceK) ==> r.g.faults == g.faults)
  {
    var c := Create(t, g, target, size, u.target);
    CreateEffects(t, g, target, size, u.target);
    assert Get(c.t, BufferF(StagingSlot)) == hb && Get(c.t, MemoryF(StagingSlot)) == hm;
    DestroyLive(c.t, c.g, StagingSlot);
  }

  /** A failed upload leaves live exactly what was live before; a
      successful one adds the target's buffer and memory. With a live
      device nothing faults. */
  lemma StagedLive(t: Table, g: Gpu, target: BufferSlot, usage: nat, data: seq<bv8>, size: nat, u: Upload)
    requires g.Valid() && target != StagingSlot && size <= |data|
    ensures var r := CreateStaged(t, g, target, usage, data, size, u);
      && (r.res != VkSuccess ==> r.g.live.Keys == g.live.Keys)
      && (r.res == VkSuccess ==>
            r.g.live.Keys == g.live.Keys + {Get(r.t, BufferF(target)), Get(r.t, MemoryF(target))})
      && (g.AnyLive(DeviceK) ==> r.g.faults == g.faults)
  {
    if Verdict(u.staging) == VkSuccess {
      if u.mapRes != VkSuccess {
        MapFailedLive(t, g, target, usage, data, size, u);
      } else {
        StagedTransferLive(t, g, target, usage, data, size, u);
      }
    } else {
      CreateEffects(t, g, StagingSlot, size, u.staging);
    }
  }

  lemma MapFailedLive(t: Table, g: Gpu, target: BufferSlot, usage: nat, data: seq<bv8>, size: nat, u: Upload)
    requires g.Valid() && target != StagingSlot && size <= |data|
    requires Verdict(u.staging) == VkSuccess && u.mapRes != VkSuccess
    ensures var r := CreateStaged(t, g, target, usage, data, size, u);
      r.g.live.Keys == g.live.Keys && (g.AnyLive(DeviceK) ==> r.g.faults == g.faults)
  {
    var s := Create(t, g, StagingSlot, size, u.staging);
    CreateEffects(t, g, StagingSlot, size, u.staging);
    DestroyLive(s.t, s.g, StagingSlot);
  }

  lemma StagedTransferLive(t: Table, g: Gpu, target: BufferSlot, usage: nat, data: seq<bv8>, size: nat, u: Upload)
    requires g.Valid() && target != StagingSlot && size <= |data|
    requires Verdict(u.staging) == VkSuccess && u.mapRes == VkSuccess
    ensures var r := CreateStaged(t, g, target, usage, data, size, u);
      && (r.res != VkSuccess ==> r.g.live.Keys == g.live.Keys)
      && (r.res == VkSuccess ==>
            r.g.live.Keys == g.live.Keys + {Get(r.t, BufferF(target)), Get(r.t, MemoryF(target))})
      && (g.AnyLive(DeviceK) ==> r.g.faults == g.faults)
  {
    var s := Create(t, g, StagingSlot, size, u.staging);
    var hb := Get(s.t, BufferF(StagingSlot));
    var hm := Get(s.t, MemoryF(StagingSlot));
    assert s.g.live.Keys - {hb, hm} == g.live.Keys && s.g.live[hb] == BufferK && s.g.live[hm] == MemoryK
      && (g.AnyLive(DeviceK) ==> s.g.faults == g.faults && s.g.AnyLive(DeviceK)) by {
      CreateEffects(t, g, StagingSlot, size, u.staging);
      MakeKeepsAnyLiveBuffer(t, g, StagingSlot, size, u.staging);
    }
    var staged := CopyData(seq(size, _ => 0), data, size, u.mapRes).0[..size];
    var r := Transfer(s.t, s.g, target, usage, staged, size, u);
    assert CreateStaged(t, g, target, usage, data, size, u) == r;
    TransferLive(s.t, s.g, target, usage, staged, size, u, hb, hm);
  }

  /** A creation keeps a live device live. */
  lemma MakeKeepsAnyLiveBuffer(t: Table, g: Gpu, b: BufferSlot, size: nat, d: Driver)
    requires g.Valid()
    ensures g.AnyLive(DeviceK) ==> Create(t, g, b, size, d).g.AnyLive(DeviceK)
  {
    CreateEffects(t, g, b, size, d);
    if g.AnyLive(DeviceK) {
      var h :| h in g.live && g.live[h] == DeviceK;
      assert h in Create(t, g, b, size, d).g.live;
    }
  }
  // ---------------------------------------------------------------------
  // Ownership

  /** Under the ownership invariant a recorded device is a live one. */
  lemma RecordedDeviceLive(t: Table, g: Gpu)
    requires Tracks(t, g) && Get(t, DeviceF) != 0
    ensures g.AnyLive(DeviceK)
  {
    assert Get(t, DeviceF) in g.live && g.live[Get(t, DeviceF)] == DeviceK;
  }

  /** Creating a buffer into an empty context keeps the ownership
      invariant; with the device recorded it raises no fault. */
  lemma CreateKeeps(t: Table, g: Gpu, b: BufferSlot, size: nat, d: Driver)
    requires g.Valid() && Tracks(t, g) && Get(t, BufferF(b)) == 0 && Get(t, MemoryF(b)) == 0
    ensures var c := Create(t, g, b, size, d); Tracks(c.t, c.g)
    ensures Get(t, DeviceF) != 0 ==> Create(t, g, b, size, d).g.faults == g.faults
  {
    var t0 := Zero(t, {BufferF(b), MemoryF(b)});
    ZeroOfNulls(t, g, {BufferF(b), MemoryF(b)});
    var (t1, g1) := Make(t0, g, BufferF(b), d.createRes);
    MakeKeeps(t0, g, BufferF(b), d.createRes);
    if d.createRes == VkSuccess {
      if d.memoryType == U32_MAX {
        ReleaseKeeps(t1, g1, BufferF(b));
      } else {
        assert Get(t1, MemoryF(b)) == 0;
        var (t2, g2) := Make(t1, g1, MemoryF(b), d.allocRes);
        MakeKeeps(t1, g1, MemoryF(b), d.allocRes);
        if d.allocRes != VkSuccess {
          ReleaseKeeps(t2, g2, BufferF(b));
        } else if d.bindRes != VkSuccess {
          var (t3, g3) := Release(t2, g2, MemoryF(b));
          ReleaseKeeps(t2, g2, MemoryF(b));
          ReleaseKeeps(t3, g3, BufferF(b));
        }
      }
    }
    if Get(t, DeviceF) != 0 {
      RecordedDeviceLive(t, g);
      CreateEffects(t, g, b, size, d);
    }
  }

  /** Destroying a buffer keeps the ownership invariant and raises no
      fault. */
  lemma DestroyKeeps(t: Table, g: Gpu, b: BufferSlot)
    requires g.Valid() && Tracks(t, g)
    ensures var r := Destroy(t, g, b); Tracks(r.0, r.1) && r.1.faults == g.faults
  {
    var (t1, g1) := Release(t, g, BufferF(b));
    ReleaseKeeps(t, g, BufferF(b));
    DeviceChildHasNoChildren(t, BufferK);
    ReleaseKeeps(t1, g1, MemoryF(b));
    DeviceChildHasNoChildren(t1, MemoryK);
  }

  /** The second half of an upload into an empty target keeps the
      ownership invariant. */
  lemma TransferKeeps(t: Table, g: Gpu, target: BufferSlot, usage: nat, staged: seq<bv8>, size: nat, u: Upload)
    requires g.Valid() && target != StagingSlot && |staged| == size && Tracks(t, g)
    requires Get(t, BufferF(target)) == 0 && Get(t, MemoryF(target)) == 0
    ensures var r := Transfer(t, g, target, usage, staged, size, u); Tracks(r.t, r.g)
  {
    var c := Create(t, g, target, size, u.target);
    CreateKeeps(t, g, target, size, u.target);
    var (t1, g1) := Destroy(c.t, c.g, StagingSlot);
    DestroyKeeps(c.t, c.g, StagingSlot);
    if c.res == VkSuccess && u.copyRes != VkSuccess {
      DestroyKeeps(t1, g1, target);
    }
  }

  /** An upload into an empty target keeps the ownership invariant. */
  lemma StagedKeeps(t: Table, g: Gpu, target: BufferSlot, usage: nat, data: seq<bv8>, size: nat, u: Upload)
    requires g.Valid() && target != StagingSlot && size <= |data| && Tracks(t, g)
    requires Get(t, BufferF(target)) == 0 && Get(t, MemoryF(target)) == 0
    requires Get(t, BufferF(StagingSlot)) == 0 && Get(t, MemoryF(StagingSlot)) == 0
    ensures var r := CreateStaged(t, g, target, usage, data, size, u); Tracks(r.t, r.g)
  {
    var s := Create(t, g, StagingSlot, size, u.staging);
    CreateKeeps(t, g, StagingSlot, size, u.staging);
    if s.res == VkSuccess {
      if u.mapRes != VkSuccess {
        DestroyKeeps(s.t, s.g, StagingSlot);
      } else {
        var filled := CopyData(seq(size, _ => 0), data, size, u.mapRes).0;
        TransferKeeps(s.t, s.g, target, usage, filled[..size], size, u);
      }
    }
  }
}
