/** An abstract graphics device that keeps the books on object lifetimes,
    and the table of handle fields through which the renderer owns objects.

    Every creation call of the graphics API takes an injected result code;
    on success the device hands out a fresh positive handle. The device
    records which handles are live and of what kind, counts every misuse
    (destroying a handle that is not live, destroying a parent while a child
    of it is live, creating a child without a live parent) as a fault, and
    logs every creation and destruction in order.

    The renderer's handle-typed struct members are modelled as one table
    from field names to handles, 0 being the null handle. `Tracks` is the
    ownership invariant: the non-null fields name exactly the live objects,
    one field per object, each of the field's kind. */
module Ledger {
  import opened Common

  /** The kinds of objects the renderer creates. */
  datatype Kind =
    | InstanceK | SurfaceK | DeviceK | SwapchainK | ImageViewK | FramebufferK
    | SemaphoreK | FenceK | CommandPoolK | RenderPassK | PipelineK
    | BufferK | MemoryK | DescriptorPoolK

  /** Objects created from a logical device. */
  predicate DeviceChild(k: Kind) {
    !(k == InstanceK || k == SurfaceK || k == DeviceK)
  }

  /** The parent relation of the graphics API: surfaces and devices belong to
      the instance, swapchains to their surface, and everything else to the
      device. A parent must not be destroyed while a child of it is live. */
  predicate DependsOn(child: Kind, parent: Kind) {
    || (parent == InstanceK && (child == SurfaceK || child == DeviceK))
    || (parent == SurfaceK && child == SwapchainK)
    || (parent == DeviceK && DeviceChild(child))
  }

  datatype Event =
    | Created(kind: Kind, handle: nat)
    | CreateFailed(kind: Kind)
    | Destroyed(kind: Kind, handle: nat)
    | BadDestroy(handle: nat)

  /** The device's books: the next fresh handle, the live handles with their
      kinds, the number of faults so far and the event log. */
  datatype Gpu = Gpu(next: nat, live: map<nat, Kind>, faults: nat, log: seq<Event>) {
    predicate Valid() {
      next >= 1 && forall h :: h in live ==> 1 <= h < next
    }

    predicate AnyLive(k: Kind) {
      exists h :: h in live && live[h] == k
    }
  }

  /** A device that has created nothing yet. */
  const FRESH: Gpu := Gpu(1, map[], 0, [])

  predicate ParentsLive(g: Gpu, k: Kind) {
    forall p: Kind :: DependsOn(k, p) ==> g.AnyLive(p)
  }

  predicate ChildrenGone(g: Gpu, k: Kind) {
    forall c: Kind :: DependsOn(c, k) ==> !g.AnyLive(c)
  }

  /** A creation call that returned `res`: on success a fresh handle becomes
      live, otherwise only the log changes and the handle written back is
      the null handle. */
  function Create(g: Gpu, k: Kind, res: VkResult): (r: (Gpu, nat))
    requires g.Valid()
    ensures r.0.Valid() && r.0.next >= g.next
    ensures res == VkSuccess <==> r.1 != 0
    ensures res == VkSuccess ==>
      && r.1 !in g.live
      && r.0.live == g.live[r.1 := k]
      && r.0.log == g.log + [Created(k, r.1)]
      && r.0.faults == g.faults + (if ParentsLive(g, k) then 0 else 1)
    ensures res != VkSuccess ==> r.0 == g.(log := g.log + [CreateFailed(k)])
  {
    if res == VkSuccess then
      var h := g.next;
      (Gpu(h + 1, g.live[h := k], g.faults + (if ParentsLive(g, k) then 0 else 1), g.log + [Created(k, h)]), h)
    else
      (g.(log := g.log + [CreateFailed(k)]), 0)
  }

  /** The log entries one destruction call adds: none for the null handle,
    a bad destroy for a handle that is not live. */
  function DestroyEvents(g: Gpu, h: nat): seq<Event> {
    if h == 0 then [] else if h in g.live then [Destroyed(g.live[h], h)] else [BadDestroy(h)]
  }

  /** A destruction call. The null handle is accepted and ignored, as the
      graphics API specifies for every destroy command. */
  function Destroy(g: Gpu, h: nat): (r: Gpu)
    requires g.Valid()
    ensures r.Valid() && r.next == g.next
    ensures r.log == g.log + DestroyEvents(g, h)
    ensures h == 0 ==> r == g
    ensures h != 0 && h !in g.live ==>
      r == g.(faults := g.faults + 1, log := g.log + [BadDestroy(h)])
    ensures h in g.live ==>
      && r.live == g.live - {h}
      && r.log == g.log + [Destroyed(g.live[h], h)]
      && r.faults == g.faults + (if ChildrenGone(g, g.live[h]) then 0 else 1)
  {
    if h == 0 then g
    else if h !in g.live then g.(faults := g.faults + 1, log := g.log + [BadDestroy(h)])
    else
      var k := g.live[h];
      Gpu(g.next, g.live - {h}, g.faults + (if ChildrenGone(g, k) then 0 else 1), g.log + [Destroyed(k, h)])
  }

  /** Destroying a live handle twice is a fault the second time. */
  lemma DoubleDestroyFaults(g: Gpu, h: nat)
    requires g.Valid() && h in g.live
    ensures Destroy(Destroy(g, h), h).faults > g.faults
  {
  }

  /** How many destruction calls named `h` in a log. */
  function DestroyCalls(log: seq<Event>, h: nat): (n: nat)
    ensures n <= |log|
    ensures n == 0 <==> forall i :: 0 <= i < |log| ==>
      !((log[i].Destroyed? || log[i].BadDestroy?) && log[i].handle == h)
  {
    if log == [] then 0
    else
      var e := log[|log| - 1];
      DestroyCalls(log[..|log| - 1], h) + (if (e.Destroyed? || e.BadDestroy?) && e.handle == h then 1 else 0)
  }

  lemma DestroyCallsAppend(log: seq<Event>, more: seq<Event>, h: nat)
    ensures DestroyCalls(log + more, h) == DestroyCalls(log, h) + DestroyCalls(more, h)
    decreases |more|
  {
    if more == [] {
      assert log + more == log;
    } else {
      var m := |more| - 1;
      assert (log + more)[..|log + more| - 1] == log + more[..m];
      DestroyCallsAppend(log, more[..m], h);
    }
  }

  // ---------------------------------------------------------------------
  // The renderer's handle fields

  /** The buffer contexts (`VkBufferContext`) the renderer fills: the
      per-frame camera uniforms, each mesh slot's vertex and index buffers,
      the staging buffer local to a staged upload, and the quad buffers of
      the earlier renderer revision. */
  datatype BufferSlot =
    | UniformSlot(frame: nat)
    | MeshVertexSlot(mesh: nat)
    | MeshIndexSlot(mesh: nat)
    | StagingSlot
    | QuadVertexSlot
    | QuadIndexSlot

  /** Every handle-typed member the renderer writes. `RetiredSwapchainF` is
      the local `old_swapchain` of a swapchain recreation. */
  datatype Field =
    | InstanceF | SurfaceF | DeviceF
    | SwapchainF | RetiredSwapchainF | ImageViewF(image: nat)
    | FramebufferF(image: nat) | RenderFinishedF(image: nat)
    | ImageAvailableF(slot: nat) | FrameFinishedF(slot: nat) | InFlightF(slot: nat)
    | CommandPoolF | RenderPassF | PipelineF | DescriptorPoolF
    | BufferF(buffer: BufferSlot) | MemoryF(buffer: BufferSlot)

  function KindOf(f: Field): Kind {
    match f
    case InstanceF => InstanceK
    case SurfaceF => SurfaceK
    case DeviceF => DeviceK
    case SwapchainF => SwapchainK
    case RetiredSwapchainF => SwapchainK
    case ImageViewF(_) => ImageViewK
    case FramebufferF(_) => FramebufferK
    case RenderFinishedF(_) => SemaphoreK
    case ImageAvailableF(_) => SemaphoreK
    case FrameFinishedF(_) => SemaphoreK
    case InFlightF(_) => FenceK
    case CommandPoolF => CommandPoolK
    case RenderPassF => RenderPassK
    case PipelineF => PipelineK
    case DescriptorPoolF => DescriptorPoolK
    case BufferF(_) => BufferK
    case MemoryF(_) => MemoryK
  }

  /** The field that holds the unique object of a parent kind. */
  function RootField(k: Kind): Field {
    if k == InstanceK then InstanceF else if k == SurfaceK then SurfaceF else DeviceF
  }

  type Table = map<Field, nat>

  /** A field's value; fields never written read as the null handle. */
  function Get(t: Table, f: Field): nat {
    if f in t then t[f] else 0
  }

  /** The ownership invariant: every recorded handle is live with its
      field's kind, no handle is recorded twice, and every live object is
      recorded. */
  ghost predicate Tracks(t: Table, g: Gpu) {
    Kinds(t, g) && Injective(t) && Covers(t, g)
  }

  ghost predicate Kinds(t: Table, g: Gpu) {
    forall f :: Get(t, f) != 0 ==> Get(t, f) in g.live && g.live[Get(t, f)] == KindOf(f)
  }

  ghost predicate Injective(t: Table) {
    forall f1, f2 :: Get(t, f1) != 0 && Get(t, f1) == Get(t, f2) ==> f1 == f2
  }

  ghost predicate Covers(t: Table, g: Gpu) {
    forall h :: h in g.live ==> exists f :: Get(t, f) == h
  }

  /** Every parent kind of `k` has its object recorded. */
  ghost predicate ParentsHeld(t: Table, k: Kind) {
    forall p: Kind :: DependsOn(k, p) ==> Get(t, RootField(p)) != 0
  }

  /** A device child's parents are the device and, for a swapchain, the
      surface. */
  lemma DeviceChildParents(t: Table, k: Kind)
    requires DeviceChild(k)
    ensures Get(t, DeviceF) != 0 && (k == SwapchainK ==> Get(t, SurfaceF) != 0) ==> ParentsHeld(t, k)
  {
    forall p: Kind | DependsOn(k, p)
      ensures p == DeviceK || (k == SwapchainK && p == SurfaceK)
    {
    }
  }

  /** No field of a child kind of `k` holds an object. */
  ghost predicate NoChildren(t: Table, k: Kind) {
    forall f :: DependsOn(KindOf(f), k) ==> Get(t, f) == 0
  }

  /** Two tables that agree on every field. */
  ghost predicate Same(t1: Table, t2: Table) {
    forall f :: Get(t1, f) == Get(t2, f)
  }

  /** Nothing is live and nothing is recorded. */
  ghost predicate Empty(t: Table, g: Gpu) {
    g.live == map[] && forall f :: Get(t, f) == 0
  }

  lemma TracksOfFresh(t: Table)
    requires forall f :: Get(t, f) == 0
    ensures Tracks(t, FRESH)
  {
  }

  /** `memset` of a group of fields: they all read as null afterwards. */
  function Zero(t: Table, fs: set<Field>): (r: Table)
    ensures forall f :: Get(r, f) == (if f in fs then 0 else Get(t, f))
  {
    map f | f in t.Keys + fs :: if f in fs then 0 else t[f]
  }

  /** Clearing fields that are already null changes nothing observable. */
  lemma ZeroOfNulls(t: Table, g: Gpu, fs: set<Field>)
    requires Tracks(t, g)
    requires forall f :: f in fs ==> Get(t, f) == 0
    ensures Tracks(Zero(t, fs), g) && Same(Zero(t, fs), t)
  {
    var z := Zero(t, fs);
    forall h | h in g.live
      ensures exists f :: Get(z, f) == h
    {
      var f :| Get(t, f) == h;
      assert Get(z, f) == h;
    }
  }

  /** A creation call that writes its handle into field `f`. */
  function Make(t: Table, g: Gpu, f: Field, res: VkResult): (r: (Table, Gpu))
    requires g.Valid()
    ensures r.1.Valid() && r.1.next >= g.next
    ensures Get(r.0, f) != 0 <==> res == VkSuccess
    ensures forall f' :: f' != f ==> Get(r.0, f') == Get(t, f')
    ensures res != VkSuccess ==> r.1.live == g.live && r.1.faults == g.faults
    ensures res == VkSuccess ==> r.1.live == g.live[Get(r.0, f) := KindOf(f)] && Get(r.0, f) !in g.live
  {
    var (g1, h) := Create(g, KindOf(f), res);
    (t[f := h], g1)
  }

  /** A creation adds no destruction call to the log. */
  lemma MakeCalls(t: Table, g: Gpu, f: Field, res: VkResult, h: nat)
    requires g.Valid()
    ensures DestroyCalls(Make(t, g, f, res).1.log, h) == DestroyCalls(g.log, h)
  {
    var (g1, x) := Create(g, KindOf(f), res);
    var e := if res == VkSuccess then Created(KindOf(f), x) else CreateFailed(KindOf(f));
    assert g1.log == g.log + [e];
    DestroyCallsAppend(g.log, [e], h);
    assert DestroyCalls([e], h) == 0 by {
      assert [e][..0] == [];
    }
  }

  /** A creation keeps every kind that was live alive. */
  lemma MakeKeepsAnyLive(t: Table, g: Gpu, f: Field, res: VkResult, k: Kind)
    requires g.Valid()
    ensures g.AnyLive(k) ==> Make(t, g, f, res).1.AnyLive(k)
  {
    if g.AnyLive(k) {
      var h :| h in g.live && g.live[h] == k;
      assert h in Make(t, g, f, res).1.live;
    }
  }

  /** Nothing depends on a device child. */
  lemma DeviceChildIsLeaf(g: Gpu, k: Kind)
    requires DeviceChild(k)
    ensures ChildrenGone(g, k)
  {
  }

  /** No field can hold a child of a device child. */
  lemma DeviceChildHasNoChildren(t: Table, k: Kind)
    requires DeviceChild(k)
    ensures NoChildren(t, k)
  {
    forall f
      ensures !DependsOn(KindOf(f), k)
    {
    }
  }

  /** A device child other than the swapchain needs only the device. */
  lemma DeviceIsEnough(g: Gpu, k: Kind)
    requires DeviceChild(k) && k != SwapchainK
    ensures g.AnyLive(DeviceK) ==> ParentsLive(g, k)
  {
  }

  /** Creating into a null field keeps the ownership invariant; with the
      parents recorded it is free of faults. */
  lemma MakeKeeps(t: Table, g: Gpu, f: Field, res: VkResult)
    requires g.Valid() && Tracks(t, g) && Get(t, f) == 0
    ensures Tracks(Make(t, g, f, res).0, Make(t, g, f, res).1)
    ensures ParentsHeld(t, KindOf(f)) ==> Make(t, g, f, res).1.faults == g.faults
  {
    MakeTracks(t, g, f, res);
    MakeParents(t, g, KindOf(f));
  }

  lemma MakeTracks(t: Table, g: Gpu, f: Field, res: VkResult)
    requires g.Valid()
    ensures Tracks(t, g) && Get(t, f) == 0 ==>
      var (g1, h) := Create(g, KindOf(f), res); Tracks(t[f := h], g1)
  {
    if !(Tracks(t, g) && Get(t, f) == 0) { return; }
    var (g1, h) := Create(g, KindOf(f), res);
    var t1 := t[f := h];
    if res != VkSuccess {
      assert Same(t1, t);
    } else {
      MakeFresh(t, g, f);
    }
  }

  lemma MakeFresh(t: Table, g: Gpu, f: Field)
    requires g.Valid() && Tracks(t, g) && Get(t, f) == 0
    ensures var (g1, h) := Create(g, KindOf(f), VkSuccess); Tracks(t[f := h], g1)
  {
    var r := Create(g, KindOf(f), VkSuccess);
    FreshTracks(t, g, r.0, f, r.1);
  }

  lemma FreshTracks(t: Table, g: Gpu, g1: Gpu, f: Field, h: nat)
    requires g.Valid() && Tracks(t, g) && Get(t, f) == 0
    requires h != 0 && h !in g.live && g1.live == g.live[h := KindOf(f)]
    ensures Tracks(t[f := h], g1)
  {
    FreshKinds(t, g, g1, f, h);
    FreshInjective(t, g, f, h);
    FreshCovers(t, g, g1, f, h);
  }

  lemma FreshKinds(t: Table, g: Gpu, g1: Gpu, f: Field, h: nat)
    requires Kinds(t, g) && h !in g.live && g1.live == g.live[h := KindOf(f)]
    ensures Kinds(t[f := h], g1)
  {
    var t1 := t[f := h];
    forall f' | Get(t1, f') != 0
      ensures Get(t1, f') in g1.live && g1.live[Get(t1, f')] == KindOf(f')
    {
      if f' != f {
        assert Get(t1, f') == Get(t, f') && Get(t, f') in g.live;
      }
    }
  }

  lemma FreshInjective(t: Table, g: Gpu, f: Field, h: nat)
    requires Kinds(t, g) && Injective(t) && Get(t, f) == 0 && h !in g.live
    ensures Injective(t[f := h])
  {
    var t1 := t[f := h];
    forall f' | f' != f && Get(t1, f') != 0
      ensures Get(t1, f') != h
    {
      assert Get(t1, f') == Get(t, f') && Get(t, f') in g.live;
    }
    forall f1, f2 | Get(t1, f1) != 0 && Get(t1, f1) == Get(t1, f2)
      ensures f1 == f2
    {
      if f1 != f && f2 != f {
        assert Get(t1, f1) == Get(t, f1) && Get(t1, f2) == Get(t, f2);
      }
    }
  }

  lemma FreshCovers(t: Table, g: Gpu, g1: Gpu, f: Field, h: nat)
    requires g.Valid() && Covers(t, g) && Get(t, f) == 0 && h != 0 && g1.live == g.live[h := KindOf(f)]
    ensures Covers(t[f := h], g1)
  {
    var t1 := t[f := h];
    forall hh | hh in g1.live
      ensures exists f' :: Get(t1, f') == hh
    {
      if hh == h {
        assert Get(t1, f) == hh;
      } else {
        var f' :| Get(t, f') == hh;
        assert f' != f;
        assert Get(t1, f') == hh;
      }
    }
  }

  lemma MakeParents(t: Table, g: Gpu, k: Kind)
    ensures Tracks(t, g) && ParentsHeld(t, k) ==> ParentsLive(g, k)
  {
    if !(Tracks(t, g) && ParentsHeld(t, k)) { return; }
    forall p: Kind | DependsOn(k, p)
      ensures g.AnyLive(p)
    {
      var h := Get(t, RootField(p));
      assert h in g.live && g.live[h] == KindOf(RootField(p));
    }
  }

  /** A destruction of the object in field `f` that then nulls the field. */
  function Release(t: Table, g: Gpu, f: Field): (r: (Table, Gpu))
    requires g.Valid()
    ensures r.1.Valid() && r.1.next == g.next
    ensures Get(r.0, f) == 0
    ensures forall f' :: f' != f ==> Get(r.0, f') == Get(t, f')
    ensures Get(t, f) == 0 ==> r.1 == g
    ensures r.1.log == g.log + DestroyEvents(g, Get(t, f))
  {
    (t[f := 0], Destroy(g, Get(t, f)))
  }

  /** A release adds one destruction call, naming the field's handle, when
      the field is not null. */
  lemma ReleaseCalls(t: Table, g: Gpu, f: Field, h: nat)
    requires g.Valid()
    ensures DestroyCalls(Release(t, g, f).1.log, h) == DestroyCalls(g.log, h) + (if Get(t, f) != 0 && Get(t, f) == h then 1 else 0)
  {
    var es := DestroyEvents(g, Get(t, f));
    DestroyCallsAppend(g.log, es, h);
    if es != [] {
      assert es[..0] == [];
    }
  }

  /** Releasing keeps the ownership invariant, removes exactly the field's
      object, and is free of faults when no child of it is recorded. */
  lemma ReleaseKeeps(t: Table, g: Gpu, f: Field)
    requires g.Valid() && Tracks(t, g)
    ensures Tracks(Release(t, g, f).0, Release(t, g, f).1)
    ensures Get(t, f) != 0 ==> Release(t, g, f).1.live == g.live - {Get(t, f)}
    ensures NoChildren(t, KindOf(f)) ==> Release(t, g, f).1.faults == g.faults
  {
    ReleaseTracks(t, g, f);
    ReleaseChildren(t, g, f);
  }

  lemma ReleaseTracks(t: Table, g: Gpu, f: Field)
    requires g.Valid()
    ensures Tracks(t, g) ==> Tracks(t[f := 0], Destroy(g, Get(t, f)))
  {
    if Tracks(t, g) {
      ReleaseKinds(t, g, f);
      ReleaseInjective(t, f);
      ReleaseCovers(t, g, f);
    }
  }

  lemma ReleaseKinds(t: Table, g: Gpu, f: Field)
    requires g.Valid() && Kinds(t, g) && Injective(t)
    ensures Kinds(t[f := 0], Destroy(g, Get(t, f)))
  {
    var g1 := Destroy(g, Get(t, f));
    var t1 := t[f := 0];
    forall f' | Get(t1, f') != 0
      ensures Get(t1, f') in g1.live && g1.live[Get(t1, f')] == KindOf(f')
    {
      assert f' != f && Get(t1, f') == Get(t, f');
      assert Get(t, f') != Get(t, f);
    }
  }

  lemma ReleaseInjective(t: Table, f: Field)
    requires Injective(t)
    ensures Injective(t[f := 0])
  {
    var t1 := t[f := 0];
    forall f1, f2 | Get(t1, f1) != 0 && Get(t1, f1) == Get(t1, f2)
      ensures f1 == f2
    {
      assert f1 != f && f2 != f;
      assert Get(t1, f1) == Get(t, f1) && Get(t1, f2) == Get(t, f2);
    }
  }

  lemma ReleaseCovers(t: Table, g: Gpu, f: Field)
    requires g.Valid() && Covers(t, g)
    ensures Covers(t[f := 0], Destroy(g, Get(t, f)))
  {
    var g1 := Destroy(g, Get(t, f));
    var t1 := t[f := 0];
    forall hh | hh in g1.live
      ensures exists f' :: Get(t1, f') == hh
    {
      var f' :| Get(t, f') == hh;
      assert f' != f;
      assert Get(t1, f') == hh;
    }
  }

  lemma ReleaseChildren(t: Table, g: Gpu, f: Field)
    requires g.Valid()
    ensures Tracks(t, g) && NoChildren(t, KindOf(f)) ==> ChildrenGone(g, KindOf(f))
  {
    if Tracks(t, g) && NoChildren(t, KindOf(f)) {
      forall h | h in g.live
        ensures !DependsOn(g.live[h], KindOf(f))
      {
        var f' :| Get(t, f') == h;
      }
    }
  }

  /** A destruction of the object in field `f` that leaves the field as it
      was: the dangling-handle pattern. */
  function Free(t: Table, g: Gpu, f: Field): (r: Gpu)
    requires g.Valid()
    ensures r.Valid()
    ensures Get(t, f) == 0 ==> r == g
    ensures Get(t, f) != 0 && Get(t, f) in g.live ==> r.live == g.live - {Get(t, f)}
  {
    Destroy(g, Get(t, f))
  }

  /** Under the invariant, a live object is in exactly one field. */
  lemma OwnerOf(t: Table, g: Gpu, f: Field)
    requires Tracks(t, g) && Get(t, f) != 0
    ensures Get(t, f) in g.live
    ensures forall f' :: f' != f ==> Get(t, f') != Get(t, f)
  {
  }

  /** When every field is null the invariant says nothing is live. */
  lemma NullTableNothingLive(t: Table, g: Gpu)
    requires g.Valid() && Tracks(t, g) && forall f :: Get(t, f) == 0
    ensures g.live == map[]
  {
  }

  /** Fields listed without repetition. */
  predicate Distinct(fs: seq<Field>) {
    forall i, j :: 0 <= i < j < |fs| ==> fs[i] != fs[j]
  }

  /** The results after dropping the first. */
  function Rest(results: seq<VkResult>): (r: seq<VkResult>)
    ensures forall i: nat :: ResultAt(r, i) == ResultAt(results, i + 1)
  {
    if results == [] then [] else results[1..]
  }

  /** The outcome of a run of creations: the table and device afterwards,
      how many creations succeeded, and the result of the run. */
  datatype Batch = Batch(t: Table, g: Gpu, made: nat, res: VkResult)

  /** Creates an object into each field of `fs` in order, the `i`-th call
      returning `ResultAt(results, i)`, and stops at the first failure: the
      loop shape `for (i = 0; i < n; i++) { if (create(&f[i]) != VK_SUCCESS)
      return result; }` shared by several creation routines. */
  function MakeSeq(t: Table, g: Gpu, fs: seq<Field>, results: seq<VkResult>): (r: Batch)
    requires g.Valid() && Distinct(fs)
    ensures r.g.Valid() && r.g.next >= g.next
    ensures r.made <= |fs|
    ensures r.res == VkSuccess <==> r.made == |fs|
    ensures r.made < |fs| ==> r.res == ResultAt(results, r.made)
    ensures forall i :: 0 <= i < r.made ==> ResultAt(results, i) == VkSuccess
    ensures forall f :: f !in fs ==> Get(r.t, f) == Get(t, f)
    ensures forall i :: 0 <= i < r.made ==> Get(r.t, fs[i]) != 0
    ensures r.made < |fs| ==> Get(r.t, fs[r.made]) == 0
    ensures forall i :: r.made < i < |fs| ==> Get(r.t, fs[i]) == Get(t, fs[i])
    decreases |fs|
  {
    if fs == [] then Batch(t, g, 0, VkSuccess)
    else
      var res := ResultAt(results, 0);
      var (t1, g1) := Make(t, g, fs[0], res);
      if res != VkSuccess then Batch(t1, g1, 0, res)
      else
        TailOf(fs);
        var b := MakeSeq(t1, g1, fs[1..], Rest(results));
        assert forall i :: 1 <= i < b.made + 1 ==> ResultAt(results, i) == ResultAt(Rest(results), i - 1);
        assert ResultAt(Rest(results), b.made) == ResultAt(results, b.made + 1);
        assert b.made < |fs| - 1 ==> fs[b.made + 1] == fs[1..][b.made];
        Batch(b.t, b.g, b.made + 1, b.res)
  }

  /** The tail of a run of distinct fields is distinct, is the run shifted
      by one, and does not hold the head. */
  lemma TailOf(fs: seq<Field>)
    requires Distinct(fs) && fs != []
    ensures Distinct(fs[1..])
    ensures forall i :: 0 <= i < |fs| - 1 ==> fs[1..][i] == fs[i + 1]
    ensures forall f :: f in fs[1..] ==> f in fs && f != fs[0]
  {
  }

  /** Into null fields, a run of creations fills exactly a prefix of them. */
  lemma MakeSeqPrefix(t: Table, g: Gpu, fs: seq<Field>, results: seq<VkResult>)
    requires g.Valid() && Distinct(fs)
    requires forall i :: 0 <= i < |fs| ==> Get(t, fs[i]) == 0
    ensures var r := MakeSeq(t, g, fs, results);
      forall i :: 0 <= i < |fs| ==> (Get(r.t, fs[i]) != 0 <==> i < r.made)
  {
    var r := MakeSeq(t, g, fs, results);
    forall i | 0 <= i < |fs|
      ensures Get(r.t, fs[i]) != 0 <==> i < r.made
    {
      if r.made < i {
        assert Get(r.t, fs[i]) == Get(t, fs[i]);
      }
    }
  }

  lemma {:induction false} MakeSeqKeeps(t: Table, g: Gpu, fs: seq<Field>, results: seq<VkResult>)
    requires g.Valid() && Distinct(fs) && Tracks(t, g)
    requires forall i :: 0 <= i < |fs| ==> Get(t, fs[i]) == 0 && DeviceChild(KindOf(fs[i])) && KindOf(fs[i]) != SwapchainK
    ensures var r := MakeSeq(t, g, fs, results); Tracks(r.t, r.g)
    ensures Get(t, DeviceF) != 0 ==> MakeSeq(t, g, fs, results).g.faults == g.faults
    decreases |fs|
  {
    if fs != [] {
      var res := ResultAt(results, 0);
      var (t1, g1) := Make(t, g, fs[0], res);
      MakeKeeps(t, g, fs[0], res);
      DeviceChildParents(t, KindOf(fs[0]));
      if res == VkSuccess {
        var rest := fs[1..];
        assert forall i :: 0 <= i < |rest| ==> rest[i] == fs[i + 1] && rest[i] != fs[0];
        assert forall i :: 0 <= i < |rest| ==>
          Get(t1, rest[i]) == 0 && DeviceChild(KindOf(rest[i])) && KindOf(rest[i]) != SwapchainK;
        assert Distinct(rest);
        assert Get(t1, DeviceF) == Get(t, DeviceF);
        MakeSeqKeeps(t1, g1, rest, Rest(results));
      }
    }
  }

  /** Destroys and nulls each field of `fs` in order. */
  function ReleaseSeq(t: Table, g: Gpu, fs: seq<Field>): (r: (Table, Gpu))
    requires g.Valid()
    ensures r.1.Valid() && r.1.next == g.next
    ensures forall i :: 0 <= i < |fs| ==> Get(r.0, fs[i]) == 0
    ensures forall f :: f !in fs ==> Get(r.0, f) == Get(t, f)
    ensures (forall i :: 0 <= i < |fs| ==> Get(t, fs[i]) == 0) ==> r.1 == g
    decreases |fs|
  {
    if fs == [] then (t, g)
    else
      var (t1, g1) := Release(t, g, fs[0]);
      assert forall i :: 0 <= i < |fs[1..]| ==> fs[1..][i] == fs[i + 1];
      var r := ReleaseSeq(t1, g1, fs[1..]);
      assert forall f :: f !in fs ==> f !in fs[1..] && f != fs[0];
      r
  }

  /** Releasing a run of device-child fields keeps the ownership invariant
      and is free of faults. */
  lemma {:induction false} ReleaseSeqKeeps(t: Table, g: Gpu, fs: seq<Field>)
    requires g.Valid() && Tracks(t, g)
    requires forall i :: 0 <= i < |fs| ==> DeviceChild(KindOf(fs[i]))
    ensures Tracks(ReleaseSeq(t, g, fs).0, ReleaseSeq(t, g, fs).1)
    ensures ReleaseSeq(t, g, fs).1.faults == g.faults
    decreases |fs|
  {
    if fs != [] {
      var (t1, g1) := Release(t, g, fs[0]);
      ReleaseKeeps(t, g, fs[0]);
      assert forall i :: 0 <= i < |fs[1..]| ==> fs[1..][i] == fs[i + 1];
      ReleaseSeqKeeps(t1, g1, fs[1..]);
    }
  }

  /** Two states that record the same handles have the same live objects. */
  lemma SameTableSameLive(t1: Table, g1: Gpu, t2: Table, g2: Gpu)
    requires g1.Valid() && g2.Valid() && Tracks(t1, g1) && Tracks(t2, g2) && Same(t1, t2)
    ensures g1.live == g2.live
  {
    forall h | h in g1.live
      ensures h in g2.live && g2.live[h] == g1.live[h]
    {
      var f :| Get(t1, f) == h;
      assert Get(t2, f) == h;
    }
    forall h | h in g2.live
      ensures h in g1.live
    {
      var f :| Get(t2, f) == h;
      assert Get(t1, f) == h;
    }
  }

  // ---------------------------------------------------------------------
  // The order of events

  /** A creation appends exactly its own event to the log. */
  lemma MakeLog(t: Table, g: Gpu, f: Field, res: VkResult)
    requires g.Valid()
    ensures var r := Make(t, g, f, res);
      r.1.log == g.log + [if res == VkSuccess then Created(KindOf(f), Get(r.0, f)) else CreateFailed(KindOf(f))]
  {
  }

  /** A release only appends to the log. */
  lemma ReleaseExtendsLog(t: Table, g: Gpu, f: Field)
    requires g.Valid()
    ensures var L := Release(t, g, f).1.log; |g.log| <= |L| && L[..|g.log|] == g.log
  {
    var L := Release(t, g, f).1.log;
    assert L == g.log + DestroyEvents(g, Get(t, f));
  }

  /** Being a prefix is transitive. */
  lemma PrefixTrans(a: seq<Event>, b: seq<Event>, c: seq<Event>)
    requires |a| <= |b| <= |c| && b[..|a|] == a && c[..|b|] == b
    ensures c[..|a|] == a
  {
    assert forall i :: 0 <= i < |a| ==> c[i] == b[i];
  }

  /** A log that grows through `a + [e]` keeps `a` as its prefix and `e`
      right after it. */
  lemma ExtendsThrough(a: seq<Event>, e: Event, b: seq<Event>, c: seq<Event>, d: seq<Event>)
    requires b == a + [e] && |b| <= |c| <= |d| && c[..|b|] == b && d[..|c|] == c
    ensures |a| < |d| && d[..|a|] == a && d[|a|] == e
  {
    PrefixTrans(b, c, d);
    assert d[|a|] == b[|a|];
    assert forall i :: 0 <= i < |a| ==> d[i] == b[i];
  }

  /** What a log holds past a prefix `a + e`, counted from the end of `a`. */
  lemma SuffixSplit(a: seq<Event>, e: seq<Event>, r: seq<Event>)
    requires |a + e| <= |r| && r[..|a + e|] == a + e
    ensures r[|a|..] == e + r[|a + e|..]
  {
    var lhs := r[|a|..];
    var rhs := e + r[|a + e|..];
    assert |lhs| == |rhs|;
    forall i | 0 <= i < |lhs|
      ensures lhs[i] == rhs[i]
    {
      if i < |e| {
        assert lhs[i] == r[|a| + i] == (a + e)[|a| + i];
      }
    }
  }

  /** A run of creations only appends to the log. */
  lemma {:induction false} MakeSeqLog(t: Table, g: Gpu, fs: seq<Field>, results: seq<VkResult>)
    requires g.Valid() && Distinct(fs)
    ensures var r := MakeSeq(t, g, fs, results).g;
      |g.log| <= |r.log| && r.log[..|g.log|] == g.log
    decreases |fs|
  {
    if fs != [] {
      var res := ResultAt(results, 0);
      var p := Make(t, g, fs[0], res);
      MakeLog(t, g, fs[0], res);
      if res == VkSuccess {
        assert forall i :: 0 <= i < |fs[1..]| ==> fs[1..][i] == fs[i + 1];
        MakeSeqLog(p.0, p.1, fs[1..], Rest(results));
        var r := MakeSeq(p.0, p.1, fs[1..], Rest(results)).g.log;
        assert MakeSeq(t, g, fs, results).g.log == r;
        PrefixTrans(g.log, p.1.log, r);
      }
    }
  }

  /** The handles a run of fields holds. */
  function Handles(t: Table, fs: seq<Field>): (r: seq<nat>)
    ensures |r| == |fs| && forall j :: 0 <= j < |fs| ==> r[j] == Get(t, fs[j])
  {
    seq(|fs|, j requires 0 <= j < |fs| => Get(t, fs[j]))
  }

  /** How many of a run of handles are not null. */
  function NonNull(hs: seq<nat>): (n: nat)
    ensures n <= |hs|
    ensures n == 0 <==> forall j :: 0 <= j < |hs| ==> hs[j] == 0
  {
    if hs == [] then 0 else (if hs[0] != 0 then 1 else 0) + NonNull(hs[1..])
  }

  /** Releasing a run of fields appends one event per non-null field. */
  lemma {:induction false} ReleaseSeqAppends(t: Table, g: Gpu, fs: seq<Field>)
    requires g.Valid() && Distinct(fs)
    ensures var r := ReleaseSeq(t, g, fs).1;
      |r.log| == |g.log| + NonNull(Handles(t, fs)) && r.log[..|g.log|] == g.log
    decreases |fs|
  {
    if fs != [] {
      var p := Release(t, g, fs[0]);
      var rest := fs[1..];
      ReleaseSeqAppends(p.0, p.1, rest);
      var r := ReleaseSeq(p.0, p.1, rest).1.log;
      assert ReleaseSeq(t, g, fs).1.log == r;
      PrefixTrans(g.log, p.1.log, r);
      assert NonNull(Handles(t, fs)) == NonNull(Handles(p.0, rest)) + |p.1.log| - |g.log| by {
        assert forall j :: 0 <= j < |rest| ==> rest[j] == fs[j + 1] && rest[j] != fs[0];
        assert Handles(p.0, rest) == Handles(t, fs)[1..];
      }
    }
  }

  /** Under the ownership invariant, every event a release of a run of
      fields of kind `k` appends destroys an object of kind `k`. */
  lemma {:induction false} ReleaseSeqKinds(t: Table, g: Gpu, fs: seq<Field>, k: Kind)
    requires g.Valid() && Tracks(t, g) && Distinct(fs)
    requires forall j :: 0 <= j < |fs| ==> KindOf(fs[j]) == k
    ensures var r := ReleaseSeq(t, g, fs).1;
      |g.log| <= |r.log| && forall i :: |g.log| <= i < |r.log| ==> r.log[i].Destroyed? && r.log[i].kind == k
    decreases |fs|
  {
    if fs != [] {
      var p := Release(t, g, fs[0]);
      ReleaseKeeps(t, g, fs[0]);
      var rest := fs[1..];
      assert forall j :: 0 <= j < |rest| ==> rest[j] == fs[j + 1] && rest[j] != fs[0];
      ReleaseSeqKinds(p.0, p.1, rest, k);
      ReleaseSeqAppends(p.0, p.1, rest);
      var r := ReleaseSeq(p.0, p.1, rest).1.log;
      assert ReleaseSeq(t, g, fs).1.log == r;
      forall i | |g.log| <= i < |p.1.log|
        ensures r[i].Destroyed? && r[i].kind == k
      {
        assert r[i] == p.1.log[i];
      }
    }
  }

  /** Under the ownership invariant, releasing a run of fields destroys
      every object the run held. */
  lemma {:induction false} ReleaseSeqCovers(t: Table, g: Gpu, fs: seq<Field>)
    requires g.Valid() && Tracks(t, g) && Distinct(fs)
    ensures var r := ReleaseSeq(t, g, fs).1;
      |g.log| <= |r.log| && forall j :: 0 <= j < |fs| && Get(t, fs[j]) != 0 ==>
        Destroyed(KindOf(fs[j]), Get(t, fs[j])) in r.log[|g.log|..]
    decreases |fs|
  {
    if fs != [] {
      var p := Release(t, g, fs[0]);
      assert Tracks(p.0, p.1) by {
        ReleaseKeeps(t, g, fs[0]);
      }
      var e := DestroyEvents(g, Get(t, fs[0]));
      assert Get(t, fs[0]) != 0 ==> e == [Destroyed(KindOf(fs[0]), Get(t, fs[0]))];
      var rest := fs[1..];
      assert forall j :: 0 <= j < |rest| ==> rest[j] == fs[j + 1] && rest[j] != fs[0];
      ReleaseSeqCovers(p.0, p.1, rest);
      var r := ReleaseSeq(p.0, p.1, rest).1.log;
      assert ReleaseSeq(t, g, fs).1.log == r;
      assert r[..|p.1.log|] == p.1.log by {
        ReleaseSeqAppends(p.0, p.1, rest);
      }
      SuffixSplit(g.log, e, r);
      forall j | 0 <= j < |fs| && Get(t, fs[j]) != 0
        ensures Destroyed(KindOf(fs[j]), Get(t, fs[j])) in r[|g.log|..]
      {
        if j != 0 {
          assert fs[j] == rest[j - 1] && Get(p.0, rest[j - 1]) == Get(t, fs[j]);
        }
      }
    }
  }

  /** Moves the handle of field `from` into the null field `to`: a local
      copy of a handle whose original is then cleared. */
  function Move(t: Table, from: Field, to: Field): (r: Table)
    requires from != to
    ensures Get(r, to) == Get(t, from) && Get(r, from) == 0
    ensures forall f :: f != from && f != to ==> Get(r, f) == Get(t, f)
  {
    t[to := Get(t, from)][from := 0]
  }

  /** Moving a handle between fields of the same kind keeps the ownership
      invariant. */
  lemma MoveKeeps(t: Table, g: Gpu, from: Field, to: Field)
    requires g.Valid() && Tracks(t, g) && from != to && Get(t, to) == 0 && KindOf(from) == KindOf(to)
    ensures Tracks(Move(t, from, to), g)
  {
    var m := Move(t, from, to);
    forall h | h in g.live
      ensures exists f :: Get(m, f) == h
    {
      var f :| Get(t, f) == h;
      if f == from {
        assert Get(m, to) == h;
      } else {
        assert f != to;
        assert Get(m, f) == h;
      }
    }
  }

  /** A run of creations keeps every live object live, with its kind. */
  lemma {:induction false} MakeSeqKeepsLive(t: Table, g: Gpu, fs: seq<Field>, results: seq<VkResult>, h: nat)
    requires g.Valid() && Distinct(fs)
    ensures h in g.live ==> h in MakeSeq(t, g, fs, results).g.live && MakeSeq(t, g, fs, results).g.live[h] == g.live[h]
    decreases |fs|
  {
    if fs != [] && h in g.live {
      var res := ResultAt(results, 0);
      var p := Make(t, g, fs[0], res);
      if res == VkSuccess {
        assert forall i :: 0 <= i < |fs[1..]| ==> fs[1..][i] == fs[i + 1];
        MakeSeqKeepsLive(p.0, p.1, fs[1..], Rest(results), h);
      }
    }
  }
  /** A log that extends another has at least as many destruction calls
      naming each handle. */
  lemma DestroyCallsPrefix(a: seq<Event>, L: seq<Event>, h: nat)
    requires |a| <= |L| && L[..|a|] == a
    ensures DestroyCalls(L, h) >= DestroyCalls(a, h)
  {
    assert L == a + L[|a|..];
    DestroyCallsAppend(a, L[|a|..], h);
  }

  /** Destroys the object of each field of a run, in order, and leaves the
      fields as they were: the dangling-handle pattern over an array. */
  function FreeSeq(t: Table, g: Gpu, fs: seq<Field>): (r: Gpu)
    requires g.Valid()
    ensures r.Valid() && r.next == g.next
    ensures (forall i :: 0 <= i < |fs| ==> Get(t, fs[i]) == 0) ==> r == g
    decreases |fs|
  {
    if fs == [] then g
    else
      assert forall i :: 0 <= i < |fs[1..]| ==> fs[1..][i] == fs[i + 1];
      FreeSeq(t, Free(t, g, fs[0]), fs[1..])
  }

  /** Freeing a run only appends to the log, and every non-null field of the
      run receives a destruction call. */
  lemma {:induction false} FreeSeqCalls(t: Table, g: Gpu, fs: seq<Field>)
    requires g.Valid()
    ensures var r := FreeSeq(t, g, fs);
      && |g.log| <= |r.log| && r.log[..|g.log|] == g.log
      && forall j :: 0 <= j < |fs| && Get(t, fs[j]) != 0 ==>
           DestroyCalls(r.log, Get(t, fs[j])) > DestroyCalls(g.log, Get(t, fs[j]))
    decreases |fs|
  {
    if fs != [] {
      var g1 := Free(t, g, fs[0]);
      var e := DestroyEvents(g, Get(t, fs[0]));
      var rest := fs[1..];
      FreeSeqCalls(t, g1, rest);
      var r := FreeSeq(t, g1, rest);
      assert FreeSeq(t, g, fs) == r;
      assert g1.log == g.log + e;
      PrefixTrans(g.log, g1.log, r.log);
      forall j | 0 <= j < |fs| && Get(t, fs[j]) != 0
        ensures DestroyCalls(r.log, Get(t, fs[j])) > DestroyCalls(g.log, Get(t, fs[j]))
      {
        var h := Get(t, fs[j]);
        DestroyCallsAppend(g.log, e, h);
        DestroyCallsPrefix(g1.log, r.log, h);
        if j == 0 {
          assert e == [e[0]] && e[0].handle == h && (e[0].Destroyed? || e[0].BadDestroy?);
          assert DestroyCalls(e, h) == 1 by {
            assert e[..0] == [];
          }
        } else {
          assert rest[j - 1] == fs[j];
        }
      }
    }
  }

  /** A run of frees reads only the fields of the run. */
  lemma {:induction false} FreeSeqReads(t1: Table, t2: Table, g: Gpu, fs: seq<Field>)
    requires g.Valid() && forall i :: 0 <= i < |fs| ==> Get(t1, fs[i]) == Get(t2, fs[i])
    ensures FreeSeq(t1, g, fs) == FreeSeq(t2, g, fs)
    decreases |fs|
  {
    if fs != [] {
      assert forall i :: 0 <= i < |fs[1..]| ==> fs[1..][i] == fs[i + 1];
      FreeSeqReads(t1, t2, Free(t1, g, fs[0]), fs[1..]);
    }
  }

  /** Over distinct fields, freeing a run does to the device exactly what
      releasing it does; only the table differs. */
  lemma {:induction false} FreeSeqIsReleaseSeq(t: Table, g: Gpu, fs: seq<Field>)
    requires g.Valid() && Distinct(fs)
    ensures FreeSeq(t, g, fs) == ReleaseSeq(t, g, fs).1
    decreases |fs|
  {
    if fs != [] {
      var (t1, g1) := Release(t, g, fs[0]);
      var rest := fs[1..];
      assert forall i :: 0 <= i < |rest| ==> rest[i] == fs[i + 1] && rest[i] != fs[0];
      FreeSeqIsReleaseSeq(t1, g1, rest);
      FreeSeqReads(t, t1, g1, rest);
      assert ReleaseSeq(t, g, fs).1 == ReleaseSeq(t1, g1, rest).1;
      assert FreeSeq(t, g, fs) == FreeSeq(t, g1, rest);
    }
  }
}
