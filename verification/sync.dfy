/** The frame-slot synchronisation objects of `renderer/vk_sync.c`: for
    each of the `MAX_FRAMES_IN_FLIGHT` slots an image-available semaphore,
    a render-finished semaphore and an in-flight fence, plus the index of the
    current slot. The handles live in the renderer's handle table; the
    slot index and the fences' signalled state are kept here. */
module Sync {
  import opened Common
  import opened Ledger

  /** The handle fields of one slot, in creation order. */
  function SlotFields(slot: nat): (r: seq<Field>)
    ensures |r| == 3 && Distinct(r)
  {
    [ImageAvailableF(slot), FrameFinishedF(slot), InFlightF(slot)]
  }

  /** All handle fields of the context, in creation order. */
  const SYNC_FIELDS: seq<Field> := SlotFields(0) + SlotFields(1)

  /** The set of fields `memset` clears. */
  const SYNC_SET: set<Field> := set i | 0 <= i < |SYNC_FIELDS| :: SYNC_FIELDS[i]

  lemma SyncFieldsFacts()
    ensures |SYNC_FIELDS| == 3 * MAX_FRAMES_IN_FLIGHT && Distinct(SYNC_FIELDS)
    ensures forall i :: 0 <= i < |SYNC_FIELDS| ==> DeviceChild(KindOf(SYNC_FIELDS[i])) && KindOf(SYNC_FIELDS[i]) != SwapchainK
    ensures forall f :: f in SYNC_SET <==> f in SYNC_FIELDS
  {
  }

  /** The non-handle part of `VkSyncContext`: the current slot, and whether
      each slot's fence is signalled. */
  datatype SyncState = SyncState(currentFrame: nat, signaled: seq<bool>) {
    predicate Valid() {
      currentFrame < MAX_FRAMES_IN_FLIGHT && |signaled| == MAX_FRAMES_IN_FLIGHT
    }
  }

  /** The state of a zeroed context. */
  const ZERO_STATE := SyncState(0, [false, false])

  datatype SyncCreated = SyncCreated(batch: Batch, state: SyncState)

  /** `vk_sync_create`: zeroes the context, starts at slot 0 and creates the
      six objects slot by slot, stopping at the first failure. Fences are
      created signalled, so the first wait on a slot does not block. */
  function Create(t: Table, g: Gpu, results: seq<VkResult>): (r: SyncCreated)
    requires g.Valid()
    ensures r.batch.g.Valid() && r.state.Valid() && r.state.currentFrame == 0
    ensures r.batch.res == VkSuccess <==> r.batch.made == |SYNC_FIELDS|
    ensures r.batch.res != VkSuccess ==> r.batch.res == ResultAt(results, r.batch.made)
  {
    SyncFieldsFacts();
    var b := MakeSeq(Zero(t, SYNC_SET), g, SYNC_FIELDS, results);
    SyncCreated(b, SyncState(0, [Get(b.t, InFlightF(0)) != 0, Get(b.t, InFlightF(1)) != 0]))
  }

  /** A slot's fence is signalled exactly when it exists. */
  lemma CreatedSignalled(t: Table, g: Gpu, results: seq<VkResult>)
    requires g.Valid()
    ensures var r := Create(t, g, results);
      forall s :: 0 <= s < MAX_FRAMES_IN_FLIGHT ==> (r.state.signaled[s] <==> Get(r.batch.t, InFlightF(s)) != 0)
  {
  }

  /** The objects a creation makes are exactly a prefix of the creation
      order. */
  lemma CreatedPrefix(t: Table, g: Gpu, results: seq<VkResult>)
    requires g.Valid()
    ensures var b := Create(t, g, results).batch;
      forall i :: 0 <= i < |SYNC_FIELDS| ==> (Get(b.t, SYNC_FIELDS[i]) != 0 <==> i < b.made)
  {
    SyncFieldsFacts();
    var t0 := Zero(t, SYNC_SET);
    forall i | 0 <= i < |SYNC_FIELDS|
      ensures Get(t0, SYNC_FIELDS[i]) == 0
    {
      assert SYNC_FIELDS[i] in SYNC_SET;
    }
    MakeSeqPrefix(t0, g, SYNC_FIELDS, results);
  }

  /** A creation touches no field outside the context. */
  lemma CreatedFrame(t: Table, g: Gpu, results: seq<VkResult>)
    requires g.Valid()
    ensures var b := Create(t, g, results).batch;
      forall f :: f !in SYNC_SET ==> Get(b.t, f) == Get(t, f)
  {
    SyncFieldsFacts();
    var t0 := Zero(t, SYNC_SET);
    var b := MakeSeq(t0, g, SYNC_FIELDS, results);
    forall f | f !in SYNC_SET
      ensures Get(b.t, f) == Get(t, f)
    {
      assert f !in SYNC_FIELDS;
      assert Get(b.t, f) == Get(t0, f);
    }
  }

  /** `vk_sync_destroy`: destroys the non-null handles and zeroes the
      context. */
  function Destroy(t: Table, g: Gpu): (r: (Table, Gpu, SyncState))
    requires g.Valid()
    ensures r.1.Valid() && r.2 == ZERO_STATE
    ensures forall f :: f in SYNC_SET ==> Get(r.0, f) == 0
    ensures forall f :: f !in SYNC_SET ==> Get(r.0, f) == Get(t, f)
    ensures (forall f :: f in SYNC_SET ==> Get(t, f) == 0) ==> r.1 == g
  {
    SyncFieldsFacts();
    var (t1, g1) := ReleaseSeq(t, g, SYNC_FIELDS);
    (t1, g1, ZERO_STATE)
  }

  /** Destroying twice is the same as destroying once. */
  lemma DestroyIdempotent(t: Table, g: Gpu)
    requires g.Valid()
    ensures var (t1, g1, _) := Destroy(t, g);
      var (t2, g2, _) := Destroy(t1, g1);
      g2 == g1 && Same(t2, t1)
  {
  }

  /** With a live device and the slots empty, creating the objects and
      destroying them again, whatever failed in between, leaves the live
      objects as they were and raises no fault. */
  lemma CreateDestroyBalanced(t: Table, g: Gpu, results: seq<VkResult>)
    requires g.Valid() && Tracks(t, g) && Get(t, DeviceF) != 0
    requires forall f :: f in SYNC_SET ==> Get(t, f) == 0
    ensures var c := Create(t, g, results);
      var (t2, g2, _) := Destroy(c.batch.t, c.batch.g);
      g2.live == g.live && g2.faults == g.faults && Same(t2, t)
  {
    SyncFieldsFacts();
    var t0 := Zero(t, SYNC_SET);
    ZeroOfNulls(t, g, SYNC_SET);
    var b := MakeSeq(t0, g, SYNC_FIELDS, results);
    MakeSeqKeeps(t0, g, SYNC_FIELDS, results);
    ReleaseSeqKeeps(b.t, b.g, SYNC_FIELDS);
    var (t2, g2, _) := Destroy(b.t, b.g);
    assert Create(t, g, results).batch == b;
    assert Tracks(t2, g2) && g2.faults == g.faults;
    forall f
      ensures Get(t2, f) == Get(t, f)
    {
      if f !in SYNC_SET {
        assert Get(b.t, f) == Get(t0, f);
      }
    }
    SameTableSameLive(t2, g2, t, g);
  }

  /** Creating the objects into an empty context keeps the ownership
      invariant; with the device recorded it raises no fault. */
  lemma CreateKeeps(t: Table, g: Gpu, results: seq<VkResult>)
    requires g.Valid() && Tracks(t, g)
    requires forall f :: f in SYNC_SET ==> Get(t, f) == 0
    ensures var c := Create(t, g, results); Tracks(c.batch.t, c.batch.g)
    ensures Get(t, DeviceF) != 0 ==> Create(t, g, results).batch.g.faults == g.faults
  {
    SyncFieldsFacts();
    var t0 := Zero(t, SYNC_SET);
    ZeroOfNulls(t, g, SYNC_SET);
    assert Get(t0, DeviceF) == Get(t, DeviceF);
    MakeSeqKeeps(t0, g, SYNC_FIELDS, results);
  }

  /** Destroying the objects keeps the ownership invariant and raises no
      fault. */
  lemma DestroyKeeps(t: Table, g: Gpu)
    requires g.Valid() && Tracks(t, g)
    ensures var d := Destroy(t, g); Tracks(d.0, d.1) && d.1.faults == g.faults
  {
    SyncFieldsFacts();
    ReleaseSeqKeeps(t, g, SYNC_FIELDS);
  }

  /** `vk_sync_reset_fence`: resets the current slot's fence; the other slot
      is untouched. */
  function ResetFence(s: SyncState, res: VkResult): (r: (SyncState, VkResult))
    requires s.Valid()
    ensures r.0.Valid() && r.1 == res && r.0.currentFrame == s.currentFrame
    ensures res == VkSuccess ==> !r.0.signaled[s.currentFrame]
    ensures res != VkSuccess ==> r.0 == s
    ensures forall k :: 0 <= k < MAX_FRAMES_IN_FLIGHT && k != s.currentFrame ==> r.0.signaled[k] == s.signaled[k]
  {
    if res == VkSuccess then (s.(signaled := s.signaled[s.currentFrame := false]), res) else (s, res)
  }

  /** The device finishing the work submitted with a slot's fence. */
  function Signal(s: SyncState, slot: nat): (r: SyncState)
    requires s.Valid() && slot < MAX_FRAMES_IN_FLIGHT
    ensures r.Valid() && r.currentFrame == s.currentFrame && r.signaled[slot]
    ensures forall k :: 0 <= k < MAX_FRAMES_IN_FLIGHT && k != slot ==> r.signaled[k] == s.signaled[k]
  {
    s.(signaled := s.signaled[slot := true])
  }

  /** `vk_sync_get_current_frame`: the current slot's three handles. */
  function CurrentFrame(s: SyncState): (r: seq<Field>)
    requires s.Valid()
    ensures r == SlotFields(s.currentFrame)
    ensures forall k :: 0 <= k < MAX_FRAMES_IN_FLIGHT && k != s.currentFrame ==>
      forall i, j :: 0 <= i < 3 && 0 <= j < 3 ==> r[i] != SlotFields(k)[j]
  {
    SlotFields(s.currentFrame)
  }

  /** `vk_sync_advance_frame`. */
  function Advance(s: SyncState): (r: SyncState)
    requires s.Valid()
    ensures r.Valid() && r.signaled == s.signaled
    ensures r.currentFrame != s.currentFrame
    ensures r.currentFrame == (s.currentFrame + 1) % MAX_FRAMES_IN_FLIGHT
  {
    s.(currentFrame := (s.currentFrame + 1) % MAX_FRAMES_IN_FLIGHT)
  }

  /** Two advances return to the same slot. */
  lemma AdvanceTwice(s: SyncState)
    requires s.Valid()
    ensures Advance(Advance(s)) == s
  {
  }
}
