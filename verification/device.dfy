/** Physical-device selection and logical-device creation of
    `renderer/vk_device.c`. What the driver reports about each physical
    device (its type, its largest 2D image, its queue families, its
    extensions, its memory types) is passed in as a `PhysicalDevice` record.
    A `Scratch` record says which of the temporary arrays the queries push
    onto the scratch arena are served; a refused push yields NULL. */
module Device {
  import opened Common
  import opened Ledger
  import Bits

  /** What one queue family offers: the GRAPHICS bit of its flags, and
      whether `vkGetPhysicalDeviceSurfaceSupportKHR` reported presentation
      to the surface. */
  datatype QueueFamily = QueueFamily(graphics: bool, present: bool)

  /** `QueueFamilyIndices`. */
  datatype QueueFamilyIndices =
    QueueFamilyIndices(graphicsFamily: nat, presentFamily: nat, graphicsFound: bool, presentFound: bool)

  /** The designated initialiser of `vk_device_find_queue_families`: both
      flags false, the indices zero. */
  const NO_FAMILIES := QueueFamilyIndices(0, 0, false, false)

  /** Some family in `[lo, hi)` has the GRAPHICS bit. */
  predicate GraphicsIn(fs: seq<QueueFamily>, lo: nat, hi: nat)
    requires hi <= |fs|
  {
    exists j :: lo <= j < hi && fs[j].graphics
  }

  /** Some family in `[lo, hi)` can present. */
  predicate PresentIn(fs: seq<QueueFamily>, lo: nat, hi: nat)
    requires hi <= |fs|
  {
    exists j :: lo <= j < hi && fs[j].present
  }

  /** `vk_device_queue_families_complete`. */
  predicate Complete(ix: QueueFamilyIndices) {
    ix.graphicsFound && ix.presentFound
  }

  /** `vk_device_find_queue_families`: scans the families in order, taking
      every graphics family and every presenting family it passes as the
      current choice, and stops at the first index by which both kinds have
      been seen. A failed scratch push returns the initial indices. */
  method FindQueueFamilies(fs: seq<QueueFamily>, scratchOk: bool) returns (r: QueueFamilyIndices)
    ensures !scratchOk ==> r == NO_FAMILIES
    ensures r.graphicsFound ==> r.graphicsFamily < |fs| && fs[r.graphicsFamily].graphics
    ensures r.presentFound ==> r.presentFamily < |fs| && fs[r.presentFamily].present
    ensures r.graphicsFound <==> scratchOk && GraphicsIn(fs, 0, |fs|)
    ensures r.presentFound <==> scratchOk && PresentIn(fs, 0, |fs|)
    ensures Complete(r) ==>
      var e := if r.graphicsFamily < r.presentFamily then r.presentFamily else r.graphicsFamily;
      && !(GraphicsIn(fs, 0, e) && PresentIn(fs, 0, e))
      && !GraphicsIn(fs, r.graphicsFamily + 1, e + 1)
      && !PresentIn(fs, r.presentFamily + 1, e + 1)
    ensures !Complete(r) && r.graphicsFound ==> !GraphicsIn(fs, r.graphicsFamily + 1, |fs|)
    ensures !Complete(r) && r.presentFound ==> !PresentIn(fs, r.presentFamily + 1, |fs|)
  {
    r := NO_FAMILIES;
    if !scratchOk {
      return;
    }
    var i := 0;
    while i < |fs|
      invariant 0 <= i <= |fs|
      invariant r.graphicsFound <==> GraphicsIn(fs, 0, i)
      invariant r.presentFound <==> PresentIn(fs, 0, i)
      invariant r.graphicsFound ==> r.graphicsFamily < i && fs[r.graphicsFamily].graphics && !GraphicsIn(fs, r.graphicsFamily + 1, i)
      invariant r.presentFound ==> r.presentFamily < i && fs[r.presentFamily].present && !PresentIn(fs, r.presentFamily + 1, i)
      invariant !Complete(r)
    {
      if fs[i].graphics {
        r := r.(graphicsFamily := i, graphicsFound := true);
      }
      if fs[i].present {
        r := r.(presentFamily := i, presentFound := true);
      }
      if Complete(r) {
        assert !(GraphicsIn(fs, 0, i) && PresentIn(fs, 0, i));
        return;
      }
      i := i + 1;
    }
  }

  /** `VK_KHR_SWAPCHAIN_EXTENSION_NAME`. */
  const SWAPCHAIN_EXTENSION: string := "VK_KHR_swapchain"
  /** The MoltenVK portability extension. */
  const PORTABILITY_SUBSET_EXTENSION: string := "VK_KHR_portability_subset"
  /** `DEVICE_EXTENSIONS`: both are asked for when the device is created. */
  const DEVICE_EXTENSIONS: seq<string> := [SWAPCHAIN_EXTENSION, PORTABILITY_SUBSET_EXTENSION]

  /** `found_count`: how many of `required` appear in `available`. */
  function FoundCount(required: seq<string>, available: seq<string>): (n: nat)
    ensures n <= |required|
    ensures n == 0 <==> forall i :: 0 <= i < |required| ==> required[i] !in available
  {
    if required == [] then 0
    else (if required[0] in available then 1 else 0) + FoundCount(required[1..], available)
  }

  /** `check_device_extension_support`: passes when at least one of the two
      listed extensions is offered, even though both are later enabled; a
      failed scratch push fails the check. */
  function CheckExtensionSupport(available: seq<string>, scratchOk: bool): (r: bool)
    ensures r <==> scratchOk && (SWAPCHAIN_EXTENSION in available || PORTABILITY_SUBSET_EXTENSION in available)
  {
    assert DEVICE_EXTENSIONS[0] == SWAPCHAIN_EXTENSION && DEVICE_EXTENSIONS[1] == PORTABILITY_SUBSET_EXTENSION;
    scratchOk && FoundCount(DEVICE_EXTENSIONS, available) >= 1
  }

  /** `VkPhysicalDeviceType`. */
  datatype DeviceType = OtherType | IntegratedGpu | DiscreteGpu | VirtualGpu | CpuType

  /** What the driver reports about one physical device. `memoryTypes`
      holds the property flags of each memory type. */
  datatype PhysicalDevice = PhysicalDevice(
    deviceType: DeviceType,
    maxImageDimension2D: u32,
    families: seq<QueueFamily>,
    extensions: seq<string>,
    memoryTypes: seq<u32>)

  /** The part of the score that depends on the device type: a discrete
      GPU gains 1000, an integrated GPU 100, any other type nothing. */
  function TypeBonus(t: DeviceType): (r: nat)
    ensures t == DiscreteGpu <==> r == 1000
    ensures t == IntegratedGpu <==> r == 100
    ensures t != DiscreteGpu && t != IntegratedGpu <==> r == 0
  {
    match t
    case DiscreteGpu => 1000
    case IntegratedGpu => 100
    case _ => 0
  }

  /** Which scratch pushes of device creation are served: the device list
      of `select_physical_device` (`listOk`), the queue-family array and the
      extension array pushed while rating device `i` (refused when `i` is in
      `familiesRefused` or `extensionsRefused`), and the queue-family array
      `vk_device_create` pushes again for the chosen device
      (`chosenFamiliesOk`). */
  datatype Scratch = Scratch(listOk: bool, familiesRefused: set<nat>, extensionsRefused: set<nat>, chosenFamiliesOk: bool)

  /** Every push served. */
  const SCRATCH_OK := Scratch(true, {}, {}, true)

  /** The device has a graphics family and a presenting family, found with
      the family push served, and an extension the check accepts, found
      with the extension push served. */
  predicate Suitable(d: PhysicalDevice, familiesOk: bool, extensionsOk: bool) {
    && familiesOk
    && GraphicsIn(d.families, 0, |d.families|)
    && PresentIn(d.families, 0, |d.families|)
    && CheckExtensionSupport(d.extensions, extensionsOk)
  }

  /** Reference score: the type bonus plus the largest 2D image dimension,
      summed in a `u32` that wraps, for a suitable device; 0 otherwise. */
  function Score(d: PhysicalDevice, familiesOk: bool, extensionsOk: bool): u32 {
    if Suitable(d, familiesOk, extensionsOk) then (TypeBonus(d.deviceType) + d.maxImageDimension2D) % (U32_MAX + 1) else 0
  }

  /** The score of device `j` with the pushes the scratch record grants it. */
  function ScoreAt(devices: seq<PhysicalDevice>, s: Scratch, j: nat): u32
    requires j < |devices|
  {
    Score(devices[j], j !in s.familiesRefused, j !in s.extensionsRefused)
  }

  /** `rate_device`: the two queries each push their own scratch array. */
  method RateDevice(d: PhysicalDevice, familiesOk: bool, extensionsOk: bool) returns (score: u32)
    ensures score == Score(d, familiesOk, extensionsOk)
    ensures !Suitable(d, familiesOk, extensionsOk) ==> score == 0
  {
    score := (TypeBonus(d.deviceType) + d.maxImageDimension2D) % (U32_MAX + 1);
    var indices := FindQueueFamilies(d.families, familiesOk);
    if !Complete(indices) {
      return 0;
    }
    if !CheckExtensionSupport(d.extensions, extensionsOk) {
      return 0;
    }
  }

  /** Without wrap-around, a suitable discrete GPU outscores a suitable
      integrated GPU with the same largest image, which outscores any other
      suitable device type with it. */
  lemma DiscreteBeatsIntegrated(d: PhysicalDevice, e: PhysicalDevice, f: PhysicalDevice)
    requires Suitable(d, true, true) && Suitable(e, true, true) && Suitable(f, true, true)
    requires d.maxImageDimension2D == e.maxImageDimension2D == f.maxImageDimension2D <= U32_MAX - 1000
    requires d.deviceType == DiscreteGpu && e.deviceType == IntegratedGpu
    requires f.deviceType != DiscreteGpu && f.deviceType != IntegratedGpu
    ensures Score(d, true, true) > Score(e, true, true) > Score(f, true, true)
  {
  }

  /** Device `k` is the one the selection loop keeps: it has a positive
      score, no device scores more, and every earlier device scores less. */
  predicate FirstBest(devices: seq<PhysicalDevice>, s: Scratch, k: nat) {
    && k < |devices|
    && ScoreAt(devices, s, k) > 0
    && (forall j :: 0 <= j < |devices| ==> ScoreAt(devices, s, j) <= ScoreAt(devices, s, k))
    && (forall j :: 0 <= j < k ==> ScoreAt(devices, s, j) < ScoreAt(devices, s, k))
  }

  /** At most one device is the first best. */
  lemma FirstBestUnique(devices: seq<PhysicalDevice>, s: Scratch, k1: nat, k2: nat)
    requires FirstBest(devices, s, k1) && FirstBest(devices, s, k2)
    ensures k1 == k2
  {
  }

  /** The outcome of `select_physical_device`: a result and, on success,
      the chosen device's position. */
  datatype Selection = Selection(res: VkResult, index: nat)

  /** The device list is served and some device scores above zero with
      the pushes it is granted. */
  predicate Selectable(devices: seq<PhysicalDevice>, s: Scratch) {
    s.listOk && exists j :: 0 <= j < |devices| && ScoreAt(devices, s, j) > 0
  }

  /** The error `select_physical_device` returns when nothing is
      selectable: initialisation failure for an empty list or no positive
      score, out-of-host-memory for a refused device list. */
  function SelectionError(devices: seq<PhysicalDevice>, s: Scratch): (res: VkResult)
    ensures res != VkSuccess
    ensures res == VkErrorOutOfHostMemory <==> |devices| > 0 && !s.listOk
  {
    if |devices| > 0 && !s.listOk then VkErrorOutOfHostMemory else VkErrorInitializationFailed
  }

  /** `select_physical_device`: no device, or no device with a positive
      score, fails initialisation; a refused device list fails with
      out-of-host-memory; otherwise the first device with the strictly
      greatest score is chosen. */
  method SelectPhysicalDevice(devices: seq<PhysicalDevice>, s: Scratch) returns (r: Selection)
    ensures r.res == VkSuccess <==> Selectable(devices, s)
    ensures r.res == VkSuccess ==> FirstBest(devices, s, r.index)
    ensures r.res != VkSuccess ==> r.res == SelectionError(devices, s)
  {
    if |devices| == 0 {
      return Selection(VkErrorInitializationFailed, 0);
    }
    if !s.listOk {
      return Selection(VkErrorOutOfHostMemory, 0);
    }
    var best := 0;
    var bestScore: u32 := 0;
    var i := 0;
    while i < |devices|
      invariant 0 <= i <= |devices|
      invariant forall j :: 0 <= j < i ==> ScoreAt(devices, s, j) <= bestScore
      invariant bestScore > 0 ==> best < i && ScoreAt(devices, s, best) == bestScore
      invariant bestScore > 0 ==> forall j :: 0 <= j < best ==> ScoreAt(devices, s, j) < bestScore
    {
      var score := RateDevice(devices[i], i !in s.familiesRefused, i !in s.extensionsRefused);
      if score > bestScore {
        bestScore := score;
        best := i;
      }
      i := i + 1;
    }
    if bestScore == 0 {
      return Selection(VkErrorInitializationFailed, 0);
    }
    r := Selection(VkSuccess, best);
  }

  /** `VK_MAX_MEMORY_TYPES`. */
  const MAX_MEMORY_TYPES: nat := 32

  /** Bit `i` of the type filter is set. */
  predicate FilterHas(filter: u32, i: nat) {
    (filter / Bits.Pow2(i)) % 2 == 1
  }

  /** Every requested property bit is among the type's flags. */
  predicate Covers(flags: u32, wanted: u32) {
    Bits.And(flags, wanted) == wanted
  }

  /** Memory type `i` exists, is allowed by the filter and has the flags. */
  predicate TypeFits(types: seq<u32>, filter: u32, wanted: u32, i: nat) {
    i < |types| && FilterHas(filter, i) && Covers(types[i], wanted)
  }

  /** `vk_device_find_memory_type`: the lowest fitting memory type, or
      `UINT32_MAX` when none fits. The C mask `1 << i` is the bit test of
      bit `i`. */
  method FindMemoryType(types: seq<u32>, filter: u32, wanted: u32) returns (r: u32)
    requires |types| <= MAX_MEMORY_TYPES
    ensures r == U32_MAX <==> forall i :: 0 <= i < |types| ==> !TypeFits(types, filter, wanted, i)
    ensures r != U32_MAX ==> TypeFits(types, filter, wanted, r)
    ensures r != U32_MAX ==> forall i :: 0 <= i < r ==> !TypeFits(types, filter, wanted, i)
  {
    var i := 0;
    while i < |types|
      invariant 0 <= i <= |types|
      invariant forall j :: 0 <= j < i ==> !TypeFits(types, filter, wanted, j)
    {
      if FilterHas(filter, i) && Covers(types[i], wanted) {
        assert i < MAX_MEMORY_TYPES < U32_MAX && TypeFits(types, filter, wanted, i);
        return i;
      }
      i := i + 1;
    }
    return U32_MAX;
  }

  /** The queue families `vk_device_create` asks one queue of: the graphics
      family, then the present family when it differs. */
  function QueueCreateFamilies(ix: QueueFamilyIndices): (r: seq<nat>)
    ensures 1 <= |r| <= 2 && r[0] == ix.graphicsFamily
    ensures |r| == 1 <==> ix.presentFamily == ix.graphicsFamily
    ensures forall i, j :: 0 <= i < j < |r| ==> r[i] != r[j]
    ensures forall q :: q in r <==> q == ix.graphicsFamily || q == ix.presentFamily
  {
    if ix.presentFamily != ix.graphicsFamily then [ix.graphicsFamily, ix.presentFamily]
    else [ix.graphicsFamily]
  }

  /** `VkDeviceContext` without the queues and the driver-reported
      properties: the chosen physical device's position, its queue families
      and its memory types. */
  datatype DeviceContext = DeviceContext(physical: Option<nat>, families: QueueFamilyIndices, memoryTypes: seq<u32>)

  const ZERO_CONTEXT := DeviceContext(None, NO_FAMILIES, [])

  /** `vk_device_create`: zeroes the context, selects a physical device,
      records its memory types and queue families, and creates the logical
      device (whose result is `createRes`). The family query is repeated
      for the chosen device with a push of its own; when that push is
      refused the device is still created, with no family found. */
  method Create(t: Table, g: Gpu, devices: seq<PhysicalDevice>, s: Scratch, createRes: VkResult)
    returns (t1: Table, g1: Gpu, ctx: DeviceContext, res: VkResult)
    requires g.Valid()
    ensures g1.Valid()
    ensures res == VkSuccess <==> Get(t1, DeviceF) != 0
    ensures forall f :: f != DeviceF ==> Get(t1, f) == Get(t, f)
    ensures ctx.physical.Some? <==> Selectable(devices, s)
    ensures ctx.physical.Some? ==> res == createRes
    ensures ctx.physical.None? ==> ctx == ZERO_CONTEXT && g1 == g && res == SelectionError(devices, s)
    ensures res == VkSuccess <==> Selectable(devices, s) && createRes == VkSuccess
    ensures ctx.physical.Some? ==> FirstBest(devices, s, ctx.physical.value)
    ensures ctx.physical.Some? ==>
      && (Complete(ctx.families) <==> s.chosenFamiliesOk)
      && (!s.chosenFamiliesOk ==> ctx.families == NO_FAMILIES)
      && ctx.memoryTypes == devices[ctx.physical.value].memoryTypes
      && ctx.families.graphicsFamily < |devices[ctx.physical.value].families|
      && ctx.families.presentFamily < |devices[ctx.physical.value].families|
    ensures Tracks(t, g) && Get(t, DeviceF) == 0 ==> Tracks(t1, g1)
    ensures Tracks(t, g) && Get(t, DeviceF) == 0 && Get(t, InstanceF) != 0 ==> g1.faults == g.faults
  {
    t1 := Zero(t, {DeviceF});
    g1 := g;
    ctx := ZERO_CONTEXT;
    var sel := SelectPhysicalDevice(devices, s);
    if sel.res != VkSuccess {
      return t1, g1, ctx, sel.res;
    }
    var d := devices[sel.index];
    var families := FindQueueFamilies(d.families, s.chosenFamiliesOk);
    ctx := DeviceContext(Some(sel.index), families, d.memoryTypes);
    MakeDeviceKeeps(t, g, createRes);
    var made := Make(t1, g1, DeviceF, createRes);
    t1, g1 := made.0, made.1;
    res := createRes;
  }

  /** Creating the device into an empty field keeps the ownership
      invariant; with the instance recorded it raises no fault. */
  lemma MakeDeviceKeeps(t: Table, g: Gpu, res: VkResult)
    requires g.Valid()
    ensures Tracks(t, g) && Get(t, DeviceF) == 0 ==>
      var m := Make(Zero(t, {DeviceF}), g, DeviceF, res);
      && Tracks(m.0, m.1)
      && (Get(t, InstanceF) != 0 ==> m.1.faults == g.faults)
  {
    if Tracks(t, g) && Get(t, DeviceF) == 0 {
      var t1 := Zero(t, {DeviceF});
      ZeroOfNulls(t, g, {DeviceF});
      MakeKeeps(t1, g, DeviceF, res);
      assert Get(t, InstanceF) != 0 ==> ParentsHeld(t1, DeviceK) by {
        forall p: Kind | DependsOn(DeviceK, p)
          ensures p == InstanceK
        {
        }
      }
    }
  }

  /** `vk_device_destroy`: destroys a non-null device and zeroes the
      context. */
  function Destroy(t: Table, g: Gpu): (r: (Table, Gpu, DeviceContext))
    requires g.Valid()
    ensures r.1.Valid() && r.2 == ZERO_CONTEXT
    ensures Get(r.0, DeviceF) == 0
    ensures forall f :: f != DeviceF ==> Get(r.0, f) == Get(t, f)
    ensures Get(t, DeviceF) == 0 ==> r.1 == g
    ensures Get(t, DeviceF) != 0 && Get(t, DeviceF) in g.live ==> r.1.live == g.live - {Get(t, DeviceF)}
  {
    var (t1, g1) := Release(t, g, DeviceF);
    (t1, g1, ZERO_CONTEXT)
  }

  /** Destroying the device once every device child is gone raises no
      fault, and a second destroy does nothing. */
  lemma DestroyCleanAndIdempotent(t: Table, g: Gpu)
    requires g.Valid() && Tracks(t, g) && NoChildren(t, DeviceK)
    ensures Destroy(t, g).1.faults == g.faults
    ensures var (t1, g1, _) := Destroy(t, g); Destroy(t1, g1).1 == g1
  {
    ReleaseKeeps(t, g, DeviceF);
  }
}
