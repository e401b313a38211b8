/** The earlier bump allocator of `memory/arena.c`. Its aligned allocation
    computes the mask and the fit test in wrapping `size_t` arithmetic and
    checks nothing else. Creation, destruction, clearing and temporary
    scopes behave as in `memory/arena.cpp`, so only allocation and the
    scratch scope are modelled here. */
module ArenaLegacy {
  import opened Common
  import opened Bits
  import Arena

  /** Reduction modulo 2^64, the arithmetic of `size_t`. */
  function Wrap(x: int): (r: usize)
    ensures 0 <= x <= SIZE_MAX ==> r == x
    ensures x > SIZE_MAX && x <= 2 * SIZE_MAX + 1 ==> r == x - (SIZE_MAX + 1)
    ensures -(SIZE_MAX + 1) <= x < 0 ==> r == x + (SIZE_MAX + 1)
  {
    if 0 <= x <= SIZE_MAX then
      ModUnique(x, SIZE_MAX + 1, 0, x);
      x % (SIZE_MAX + 1)
    else if x > SIZE_MAX && x <= 2 * SIZE_MAX + 1 then
      ModUnique(x, SIZE_MAX + 1, 1, x - (SIZE_MAX + 1));
      x % (SIZE_MAX + 1)
    else if -(SIZE_MAX + 1) <= x < 0 then
      ModUnique(x, SIZE_MAX + 1, -1, x + (SIZE_MAX + 1));
      x % (SIZE_MAX + 1)
    else
      x % (SIZE_MAX + 1)
  }

  /** `(pos + alignment - 1) & ~(alignment - 1)` in `size_t`. */
  function LegacyAlignedPos(pos: usize, alignment: usize): nat
  {
    And(Wrap(pos + alignment - 1), SIZE_MAX - Wrap(alignment - 1))
  }

  /** `arena_alloc_aligned` of `arena.c`, as written: no alignment check, no
      overflow check, and the fit test `aligned_pos + size > arena->size`
      evaluated modulo 2^64. */
  function LegacyAllocAligned(a: Arena.Arena, size: usize, alignment: usize): (r: Arena.Allocation)
    ensures r.arena.base == a.base && r.arena.size == a.size
    ensures r.ok <==> Wrap(LegacyAlignedPos(a.pos, alignment) + size) <= a.size
    ensures r.ok ==> r.offset == LegacyAlignedPos(a.pos, alignment)
    ensures !r.ok ==> r.arena == a
    ensures r.ok ==> r.arena.pos == Wrap(r.offset + size) && r.arena.pos <= a.size
  {
    var alignedPos := LegacyAlignedPos(a.pos, alignment);
    AndBelow(Wrap(a.pos + alignment - 1), SIZE_MAX - Wrap(alignment - 1));
    if Wrap(alignedPos + size) > a.size then
      Arena.Allocation(a, false, 0)
    else
      Arena.Allocation(a.(pos := Wrap(alignedPos + size)), true, alignedPos)
  }

  /** Where nothing wraps and the alignment is a power of two, the legacy
      allocator and the checked one agree exactly. */
  lemma LegacyAgreesWhenNothingWraps(a: Arena.Arena, size: usize, alignment: usize)
    requires IsPowerOfTwo(alignment)
    requires a.pos + alignment - 1 <= SIZE_MAX
    requires Arena.AlignUp(a.pos, alignment) + size <= SIZE_MAX
    ensures LegacyAllocAligned(a, size, alignment) == Arena.AllocAligned(a, size, alignment)
  {
    var aligned := Arena.AlignUp(a.pos, alignment);
    NoWrapAligned(a.pos, size, alignment);
    if aligned + size <= a.size {
      assert Arena.AllocAligned(a, size, alignment) == Arena.Allocation(a.(pos := aligned + size), true, aligned);
    } else {
      assert Arena.AllocAligned(a, size, alignment) == Arena.Allocation(a, false, 0);
    }
  }

  /** Without wrap-around the legacy mask is the checked rounding, and the
      legacy fit test sees the true end of the block. */
  lemma NoWrapAligned(pos: usize, size: usize, alignment: usize)
    requires IsPowerOfTwo(alignment)
    requires pos + alignment - 1 <= SIZE_MAX
    requires Arena.AlignUp(pos, alignment) + size <= SIZE_MAX
    ensures LegacyAlignedPos(pos, alignment) == Arena.AlignUp(pos, alignment)
    ensures Wrap(LegacyAlignedPos(pos, alignment) + size) == Arena.AlignUp(pos, alignment) + size
  {
    var p := pos + alignment - 1;
    assert Wrap(alignment - 1) == alignment - 1;
    assert Wrap(p) == p;
    assert LegacyAlignedPos(pos, alignment) == Arena.AlignedPos(pos, alignment);
  }

  /** The wrap in the fit test: 16 bytes into a 64-byte arena, a request for
      `SIZE_MAX` bytes at alignment 8 is accepted, because `16 + SIZE_MAX`
      wraps to 15. The block handed out runs far past the arena's end and
      the position moves backwards. The checked allocator refuses it. */
  lemma LegacyAcceptsOversizedRequest(base: nat)
    ensures var a := Arena.Arena(base, 64, 16);
      var r := LegacyAllocAligned(a, SIZE_MAX, 8);
      r.ok && r.offset == 16 && r.offset + SIZE_MAX > a.size && r.arena.pos == 15
      && !Arena.AllocAligned(a, SIZE_MAX, 8).ok
  {
    Pow2Of64();
    MaskRoundsDown(23, 8, 64);
    assert Wrap(8 - 1) == 7;
    assert LegacyAlignedPos(16, 8) == 16;
    assert Wrap(16 + SIZE_MAX) == 15;
  }

  /** Alignment 0: `alignment - 1` wraps to `SIZE_MAX`, the mask is 0 and the
      block is placed at offset 0, on top of what was allocated before. The
      checked allocator refuses alignment 0. */
  lemma LegacyZeroAlignmentOverlaps(base: nat)
    ensures var a := Arena.Arena(base, 64, 16);
      var r := LegacyAllocAligned(a, 8, 0);
      r.ok && r.offset == 0 && r.offset < a.pos
      && !Arena.AllocAligned(a, 8, 0).ok
  {
    assert Wrap(0 - 1) == SIZE_MAX;
    assert LegacyAlignedPos(16, 0) == And(15, 0);
  }

  /** The scratch scope of `arena.c`: it always points at the global arena,
      even when that arena has no block. */
  function LegacyScratchBegin(scratch: Arena.Arena): (t: Arena.Temp)
    ensures t.attached && t.pos == scratch.pos
  {
    Arena.TempBegin(scratch)
  }
}
