/** The checked bump allocator of `memory/arena.cpp`: a block of `size`
    bytes at address `base` with a bump position `pos`. Allocation aligns
    `pos` up with a bit mask, refuses a zero or non-power-of-two alignment,
    refuses when the rounding would overflow `size_t`, and refuses a request
    that does not fit; every refusal leaves the arena untouched. */
module Arena {
  import opened Common
  import opened Bits

  /** `sizeof(void *)` on the modelled 64-bit target. */
  const POINTER_ALIGN: usize := 8

  /** An arena. `base == 0` is the null block of a zeroed or failed arena. */
  datatype Arena = Arena(base: nat, size: usize, pos: usize) {
    /** The bump position never passes the end of the block. */
    predicate Valid() {
      pos <= size
    }
  }

  /** The outcome of one allocation: the arena afterwards and, when `ok`,
      the offset of the returned block from `base`. */
  datatype Allocation = Allocation(arena: Arena, ok: bool, offset: usize) {
    /** The C pointer value handed back: `base + offset`, or NULL. */
    function Ptr(): nat {
      if ok then arena.base + offset else 0
    }
  }

  /** One request of `size` bytes at the given alignment. */
  datatype Request = Request(size: usize, alignment: usize)

  /** `arena_add_overflow(a, b)`: true when `a + b` does not fit `size_t`. */
  predicate AddOverflows(a: usize, b: usize) {
    a > SIZE_MAX - b
  }

  /** `arena_is_power_of_two`: the bit test `v != 0 && (v & (v - 1)) == 0`. */
  predicate IsPowerOfTwoBits(v: usize) {
    v != 0 && And(v, v - 1) == 0
  }

  lemma BitTestIsPowerOfTwo(v: usize)
    ensures IsPowerOfTwoBits(v) <==> IsPowerOfTwo(v)
  {
    if v != 0 {
      PowerOfTwoBitTest(v);
    }
  }

  /** Reference definition: the least multiple of `a` that is `>= x`. */
  function AlignUp(x: nat, a: nat): (r: nat)
    requires a > 0
    ensures r % a == 0 && x <= r < x + a
  {
    var y := x + a - 1;
    RoundDownFacts(y, a);
    y - y % a
  }

  /** Aligning an already aligned position leaves it where it is. */
  lemma AlignUpOfAligned(x: nat, a: nat)
    requires a > 0 && x % a == 0
    ensures AlignUp(x, a) == x
  {
    var r := AlignUp(x, a);
    ModUnique(r, a, x / a, r - x);
    ModUnique(x, a, x / a, 0);
  }

  /** The aligned position `(pos + alignment - 1) & ~(alignment - 1)`,
      computed in 64-bit arithmetic, is exactly `AlignUp(pos, alignment)`. */
  function AlignedPos(pos: usize, alignment: usize): (r: usize)
    requires IsPowerOfTwo(alignment) && !AddOverflows(pos, alignment - 1)
    ensures r == AlignUp(pos, alignment)
  {
    var x := pos + alignment - 1;
    Pow2Of64();
    MaskRoundsDown(x, alignment, 64);
    RoundDownFacts(x, alignment);
    assert AlignUp(pos, alignment) == x - x % alignment;
    And(x, SIZE_MAX - (alignment - 1))
  }

  /** `arena_alloc_aligned(arena, size, alignment)`. */
  function AllocAligned(a: Arena, size: usize, alignment: usize): (r: Allocation)
    ensures r.arena.base == a.base && r.arena.size == a.size
    ensures !IsPowerOfTwo(alignment) ==> !r.ok && r.arena == a
    ensures IsPowerOfTwo(alignment) && a.pos + alignment - 1 > SIZE_MAX ==> !r.ok && r.arena == a
    ensures r.ok <==>
      IsPowerOfTwo(alignment) && a.pos + alignment - 1 <= SIZE_MAX
      && AlignUp(a.pos, alignment) + size <= a.size
    ensures !r.ok ==> r.arena == a && r.Ptr() == 0
    ensures r.ok ==>
      r.offset == AlignUp(a.pos, alignment)
      && r.offset % alignment == 0
      && a.pos <= r.offset < a.pos + alignment
      && r.arena.pos == r.offset + size
      && r.arena.Valid()
  {
    BitTestIsPowerOfTwo(alignment);
    if alignment == 0 || !IsPowerOfTwoBits(alignment) then
      Allocation(a, false, 0)
    else if AddOverflows(a.pos, alignment - 1) then
      Allocation(a, false, 0)
    else
      var alignedPos := AlignedPos(a.pos, alignment);
      if alignedPos > a.size || size > a.size - alignedPos then
        Allocation(a, false, 0)
      else
        Allocation(a.(pos := alignedPos + size), true, alignedPos)
  }

  lemma PointerAlignIsPowerOfTwo()
    ensures IsPowerOfTwo(POINTER_ALIGN)
  {
    assert IsPowerOfTwo(2);
    assert IsPowerOfTwo(4);
  }

  /** `arena_alloc(arena, size)`: pointer-aligned allocation. */
  function Alloc(a: Arena, size: usize): (r: Allocation)
    ensures r.ok <==> a.pos <= SIZE_MAX - 7 && AlignUp(a.pos, 8) + size <= a.size
    ensures r.ok ==> r.offset % 8 == 0 && r.arena.pos == r.offset + size
    ensures !r.ok ==> r.arena == a
  {
    PointerAlignIsPowerOfTwo();
    AllocAligned(a, size, POINTER_ALIGN)
  }

  /** Runs a sequence of allocations, ignoring their results. */
  function AllocAll(a: Arena, reqs: seq<Request>): (r: Arena)
    ensures r.base == a.base && r.size == a.size
    ensures a.Valid() ==> r.Valid()
    ensures a.pos <= r.pos
    decreases |reqs|
  {
    if reqs == [] then a
    else AllocAll(AllocAligned(a, reqs[0].size, reqs[0].alignment).arena, reqs[1..])
  }

  /** Allocates each request in turn and returns every outcome. The blocks
      handed out lie inside the region the arena had free, in increasing
      order and without overlapping. */
  method AllocSequence(a: Arena, reqs: seq<Request>) returns (final: Arena, blocks: seq<Allocation>)
    requires a.Valid()
    ensures |blocks| == |reqs|
    ensures final == AllocAll(a, reqs) && final.Valid()
    ensures forall i :: 0 <= i < |blocks| && blocks[i].ok ==>
      a.pos <= blocks[i].offset && blocks[i].offset + reqs[i].size <= final.pos
    ensures forall i, j :: 0 <= i < j < |blocks| && blocks[i].ok && blocks[j].ok ==>
      blocks[i].offset + reqs[i].size <= blocks[j].offset
  {
    var cur := a;
    blocks := [];
    var k := 0;
    while k < |reqs|
      invariant 0 <= k <= |reqs| && |blocks| == k
      invariant cur.Valid() && a.pos <= cur.pos
      invariant AllocAll(cur, reqs[k..]) == AllocAll(a, reqs)
      invariant forall i :: 0 <= i < k && blocks[i].ok ==>
        a.pos <= blocks[i].offset && blocks[i].offset + reqs[i].size <= cur.pos
      invariant forall i, j :: 0 <= i < j < k && blocks[i].ok && blocks[j].ok ==>
        blocks[i].offset + reqs[i].size <= blocks[j].offset
    {
      var r := AllocAligned(cur, reqs[k].size, reqs[k].alignment);
      assert reqs[k..][1..] == reqs[k + 1..];
      blocks := blocks + [r];
      cur := r.arena;
      k := k + 1;
    }
    final := cur;
  }

  /** `arena_create(size)`; `block` is what `malloc` returned (0 on failure),
      in which case the arena is all zero. */
  function Create(size: usize, block: nat): (r: Arena)
    ensures r.Valid() && r.pos == 0
    ensures r.base == block
    ensures block != 0 ==> r.size == size
    ensures block == 0 ==> r.size == 0
  {
    if block != 0 then Arena(block, size, 0) else Arena(0, 0, 0)
  }

  /** `arena_destroy`: frees the block when there is one and zeroes the
      arena; returns the blocks handed to `free`. */
  function Destroy(a: Arena): (r: (Arena, seq<nat>))
    ensures r.0 == Arena(0, 0, 0)
    ensures a.base != 0 <==> r.1 == [a.base]
    ensures a.base == 0 <==> r.1 == []
  {
    (Arena(0, 0, 0), if a.base != 0 then [a.base] else [])
  }

  /** `arena_clear`: the position returns to 0; block and size stay. */
  function Clear(a: Arena): (r: Arena)
    ensures r.Valid()
    ensures r.base == a.base && r.size == a.size && r.pos == 0
  {
    a.(pos := 0)
  }

  /** Clearing an arena after any allocations gives back the arena exactly
      as `arena_create` produced it. */
  lemma ClearRestoresFresh(size: usize, block: nat, reqs: seq<Request>)
    ensures Clear(AllocAll(Create(size, block), reqs)) == Create(size, block)
  {
  }

  /** A saved position; `attached` is false for the empty scope returned
      when there is no scratch arena (its arena pointer is NULL). */
  datatype Temp = Temp(attached: bool, pos: usize)

  /** `arena_temp_begin`. */
  function TempBegin(a: Arena): (t: Temp)
    ensures t.attached && t.pos == a.pos
  {
    Temp(true, a.pos)
  }

  /** `arena_temp_end`: writes the saved position back. The source
      dereferences the scope's arena pointer, so the scope must be attached. */
  function TempEnd(a: Arena, t: Temp): (r: Arena)
    requires t.attached
    ensures r.pos == t.pos && r.base == a.base && r.size == a.size
  {
    a.(pos := t.pos)
  }

  /** A temporary scope undoes every allocation made inside it. */
  lemma TempScopeRestores(a: Arena, reqs: seq<Request>)
    ensures TempEnd(AllocAll(a, reqs), TempBegin(a)) == a
  {
  }

  /** `arena_scratch_begin`, with the global scratch pointer passed in:
      no scratch arena, or one without a block, yields the empty scope. */
  function ScratchBegin(scratch: Option<Arena>): (t: Temp)
    ensures (scratch.None? || scratch.value.base == 0) <==> !t.attached
    ensures !t.attached ==> t.pos == 0
    ensures t.attached ==> t.pos == scratch.value.pos
  {
    if scratch.None? || scratch.value.base == 0 then Temp(false, 0)
    else TempBegin(scratch.value)
  }
}
