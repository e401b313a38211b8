/** The memory context of `memory/memory.cpp`: four arenas (permanent,
    transient, per-frame, scratch) created all-or-nothing, plus the global
    scratch pointer of `memory/arena.cpp` that the context hooks its scratch
    arena into. */
module Memory {
  import opened Common
  import Arena

  /** `MEMORY_ARENA_COUNT`. */
  const ARENA_COUNT: nat := 4

  /** `MemoryArenaId`, numbered as in `memory/memory.h`. */
  datatype ArenaId = Permanent | Transient | Frame | Scratch {
    function Index(): (i: nat)
      ensures i < ARENA_COUNT
    {
      match this
      case Permanent => 0
      case Transient => 1
      case Frame => 2
      case Scratch => 3
    }
  }

  /** `MemoryConfig`: the size of each arena; 0 means "no arena". */
  datatype Config = Config(permanentSize: usize, transientSize: usize, frameSize: usize, scratchSize: usize) {
    function Sizes(): (r: seq<usize>)
      ensures |r| == ARENA_COUNT
      ensures r[Permanent.Index()] == permanentSize && r[Transient.Index()] == transientSize
      ensures r[Frame.Index()] == frameSize && r[Scratch.Index()] == scratchSize
    {
      [permanentSize, transientSize, frameSize, scratchSize]
    }
  }

  /** `MemoryContext`. */
  datatype Context = Context(arenas: seq<Arena.Arena>, initialized: bool) {
    predicate Valid() {
      |arenas| == ARENA_COUNT
    }
  }

  /** The all-zero context `memset` leaves behind. */
  function Zeroed(): (c: Context)
    ensures c.Valid() && !c.initialized
    ensures forall i :: 0 <= i < ARENA_COUNT ==> c.arenas[i] == Arena.Arena(0, 0, 0)
  {
    Context(seq(ARENA_COUNT, _ => Arena.Arena(0, 0, 0)), false)
  }

  /** Where the global scratch pointer of `memory/arena.cpp` points: nowhere,
      at the module's own storage arena, or at the scratch arena of the
      modelled context. */
  datatype ScratchPtr = NullScratch | StorageScratch | ContextScratch

  /** The allocator's global state: the storage arena and the pointer. */
  datatype Globals = Globals(storage: Arena.Arena, scratch: ScratchPtr)

  /** The blocks `malloc` handed out while creating arenas of the given
      sizes, with `blocks[i]` what `malloc` returned for the `i`-th arena:
      a size of 0 calls no `malloc`, and a NULL return stops the sequence. */
  function Handed(sizes: seq<usize>, blocks: seq<nat>): (r: seq<nat>)
    requires |blocks| == |sizes|
    ensures forall i :: 0 <= i < |r| ==> r[i] != 0
    ensures |r| <= |sizes|
  {
    if sizes == [] then []
    else if sizes[0] == 0 then Handed(sizes[1..], blocks[1..])
    else if blocks[0] == 0 then []
    else [blocks[0]] + Handed(sizes[1..], blocks[1..])
  }

  /** Every arena with a non-zero size got a block. */
  predicate AllGranted(sizes: seq<usize>, blocks: seq<nat>)
    requires |blocks| == |sizes|
  {
    forall i :: 0 <= i < |sizes| ==> sizes[i] == 0 || blocks[i] != 0
  }

  /** `arena_create_checked`: a size of 0 yields the zeroed arena and counts
      as success; otherwise success means `malloc` returned a block. */
  function CreateChecked(size: usize, block: nat): (r: (Arena.Arena, bool))
    ensures r.1 <==> size == 0 || block != 0
    ensures r.0.pos == 0 && r.0.Valid()
    ensures r.0 == Arena.Create(size, if size == 0 then 0 else block)
  {
    if size == 0 then (Arena.Arena(0, 0, 0), true)
    else (Arena.Create(size, block), block != 0)
  }

  /** Creates the arenas in order and stops at the first failure; returns
      the arenas made so far (the failed one included) and whether all
      succeeded. */
  function CreateAll(sizes: seq<usize>, blocks: seq<nat>): (r: (seq<Arena.Arena>, bool))
    requires |blocks| == |sizes|
    ensures |r.0| <= |sizes|
    ensures r.1 <==> AllGranted(sizes, blocks)
    ensures r.1 ==> |r.0| == |sizes|
    ensures forall i :: 0 <= i < |r.0| ==> r.0[i].pos == 0 && r.0[i].Valid()
    ensures forall i :: 0 <= i < |r.0| && r.0[i].base != 0 ==> r.0[i].size == sizes[i]
    ensures r.1 ==> forall i :: 0 <= i < |r.0| ==> r.0[i] == Arena.Create(sizes[i], if sizes[i] == 0 then 0 else blocks[i])
    decreases |sizes|
  {
    if sizes == [] then ([], true)
    else
      var (a, ok) := CreateChecked(sizes[0], blocks[0]);
      if !ok then ([a], false)
      else
        var (rest, okRest) := CreateAll(sizes[1..], blocks[1..]);
        assert AllGranted(sizes, blocks) <==> AllGranted(sizes[1..], blocks[1..]) by {
          if AllGranted(sizes[1..], blocks[1..]) {
            forall i | 0 <= i < |sizes| ensures sizes[i] == 0 || blocks[i] != 0 {
              if i > 0 { assert sizes[i] == sizes[1..][i - 1]; }
            }
          }
        }
        ([a] + rest, okRest)
  }

  /** The blocks a set of arenas owns, in order. */
  function Bases(arenas: seq<Arena.Arena>): (r: seq<nat>)
    ensures |r| <= |arenas|
    ensures forall b :: b in r ==> b != 0
  {
    if arenas == [] then []
    else (if arenas[0].base != 0 then [arenas[0].base] else []) + Bases(arenas[1..])
  }

  /** The arenas `CreateAll` produced own exactly the blocks `malloc`
      handed out. */
  lemma {:induction false} CreatedOwnHanded(sizes: seq<usize>, blocks: seq<nat>)
    requires |blocks| == |sizes|
    ensures Bases(CreateAll(sizes, blocks).0) == Handed(sizes, blocks)
    decreases |sizes|
  {
    if sizes != [] && (sizes[0] == 0 || blocks[0] != 0) {
      CreatedOwnHanded(sizes[1..], blocks[1..]);
      var arenas := CreateAll(sizes, blocks).0;
      assert arenas[1..] == CreateAll(sizes[1..], blocks[1..]).0;
    }
  }

  /** A context padded out to four arenas with zeroed ones. */
  function Pad(arenas: seq<Arena.Arena>): (r: seq<Arena.Arena>)
    requires |arenas| <= ARENA_COUNT
    ensures |r| == ARENA_COUNT && r[..|arenas|] == arenas
    ensures forall i :: |arenas| <= i < ARENA_COUNT ==> r[i] == Arena.Arena(0, 0, 0)
  {
    arenas + seq(ARENA_COUNT - |arenas|, _ => Arena.Arena(0, 0, 0))
  }

  lemma {:induction false} BasesPadded(arenas: seq<Arena.Arena>, k: nat)
    ensures Bases(arenas + seq(k, _ => Arena.Arena(0, 0, 0))) == Bases(arenas)
    decreases |arenas|, k
  {
    var zs := seq(k, _ => Arena.Arena(0, 0, 0));
    if arenas == [] {
      assert [] + zs == zs;
      if k > 0 {
        assert zs[1..] == seq(k - 1, _ => Arena.Arena(0, 0, 0));
        BasesPadded([], k - 1);
        assert [] + zs[1..] == zs[1..];
        assert Bases(zs) == Bases(zs[1..]);
      }
    } else {
      BasesPadded(arenas[1..], k);
      assert (arenas + zs)[1..] == arenas[1..] + zs;
    }
  }

  /** The outcome of `memory_shutdown`: the zeroed context, the updated
      globals and the blocks handed to `free`, in order. */
  datatype Shutdown = Shutdown(context: Context, globals: Globals, freed: seq<nat>)

  /** `memory_shutdown` on a present context: unhooks the global scratch
      pointer when it points into this context, frees every arena that has a
      block, and zeroes the context. */
  function ShutdownContext(c: Context, g: Globals): (r: Shutdown)
    requires c.Valid()
    ensures r.context == Zeroed()
    ensures r.freed == Bases(c.arenas)
    ensures r.globals.storage == g.storage
    ensures g.scratch == ContextScratch ==> r.globals.scratch == NullScratch
    ensures g.scratch != ContextScratch ==> r.globals.scratch == g.scratch
  {
    var scratch := if g.scratch == ContextScratch then NullScratch else g.scratch;
    Shutdown(Zeroed(), g.(scratch := scratch), Bases(c.arenas))
  }

  /** The outcome of `memory_init`. */
  datatype Init = Init(ok: bool, context: Context, globals: Globals, freed: seq<nat>)

  /** `memory_init(memory, config)` with a present context; `config` is
      `None` for a NULL configuration and `blocks[i]` is what `malloc`
      returns for arena `i`. */
  function InitContext(c: Context, config: Option<Config>, g: Globals, blocks: seq<nat>): (r: Init)
    requires c.Valid() && |blocks| == ARENA_COUNT
    ensures config.None? ==> !r.ok && r.context == c && r.globals == g && r.freed == []
    ensures config.Some? ==> (r.ok <==> AllGranted(config.value.Sizes(), blocks))
    ensures r.ok ==> r.context.Valid() && r.context.initialized && r.freed == []
    ensures r.ok ==> forall i :: 0 <= i < ARENA_COUNT ==>
      r.context.arenas[i] == Arena.Create(config.value.Sizes()[i], if config.value.Sizes()[i] == 0 then 0 else blocks[i])
    ensures r.ok ==>
      r.globals.scratch == (if r.context.arenas[Scratch.Index()].base != 0 then ContextScratch else g.scratch)
    ensures config.Some? && !r.ok ==>
      && r.context == Zeroed()
      && r.freed == Handed(config.value.Sizes(), blocks)
      && r.globals.scratch == (if g.scratch == ContextScratch then NullScratch else g.scratch)
    ensures r.globals.storage == g.storage
  {
    if config.None? then Init(false, c, g, [])
    else
      var sizes := config.value.Sizes();
      var (arenas, ok) := CreateAll(sizes, blocks);
      if !ok then
        var padded := Pad(arenas);
        BasesPadded(arenas, ARENA_COUNT - |arenas|);
        CreatedOwnHanded(sizes, blocks);
        var s := ShutdownContext(Context(padded, false), g);
        Init(false, s.context, s.globals, s.freed)
      else
        var scratch := if arenas[Scratch.Index()].base != 0 then ContextScratch else g.scratch;
        Init(true, Context(arenas, true), g.(scratch := scratch), [])
  }

  /** No leak: a failed `memory_init` frees every block it obtained, and a
      successful one followed by `memory_shutdown` frees every block the
      initialisation obtained — each exactly once, in creation order. */
  lemma InitThenShutdownFreesAll(c: Context, config: Config, g: Globals, blocks: seq<nat>)
    requires c.Valid() && |blocks| == ARENA_COUNT
    ensures var r := InitContext(c, Some(config), g, blocks);
      (if r.ok then ShutdownContext(r.context, r.globals).freed else r.freed)
        == Handed(config.Sizes(), blocks)
  {
    var r := InitContext(c, Some(config), g, blocks);
    if r.ok {
      CreatedOwnHanded(config.Sizes(), blocks);
    }
  }

  /** A successful `memory_init` leaves the global scratch pointer aimed at
      a usable arena whenever a scratch size was configured. */
  lemma InitHooksScratch(c: Context, config: Config, g: Globals, blocks: seq<nat>)
    requires c.Valid() && |blocks| == ARENA_COUNT && config.scratchSize > 0
    ensures var r := InitContext(c, Some(config), g, blocks);
      r.ok ==>
        && r.globals.scratch == ContextScratch
        && ResolveScratch(r.context, r.globals).Some?
        && ResolveScratch(r.context, r.globals).value.base != 0
  {
  }

  /** `memory_arena(memory, id)`: NULL for a NULL context or an id at or
      past `MEMORY_ARENA_COUNT`; `id` is the enum's integer value. */
  function ArenaAt(memory: Option<Context>, id: nat): (r: Option<Arena.Arena>)
    requires memory.Some? ==> memory.value.Valid()
    ensures r.None? <==> memory.None? || id >= ARENA_COUNT
    ensures r.Some? ==> r.value == memory.value.arenas[id]
  {
    if memory.None? || id >= ARENA_COUNT then None else Some(memory.value.arenas[id])
  }

  /** `permanent_memory`, `transient_memory`, `frame_memory` and
      `scratch_memory`: the arena of the given role, NULL only for a NULL
      context. */
  function RoleArena(memory: Option<Context>, id: ArenaId): (r: Option<Arena.Arena>)
    requires memory.Some? ==> memory.value.Valid()
    ensures r.None? <==> memory.None?
  {
    if memory.None? then None else Some(memory.value.arenas[id.Index()])
  }

  /** The four role accessors are `memory_arena` at the role's id. */
  lemma RoleArenaAgrees(memory: Option<Context>, id: ArenaId)
    requires memory.Some? ==> memory.value.Valid()
    ensures RoleArena(memory, id) == ArenaAt(memory, id.Index())
  {
  }

  /** `memory_begin_frame`: clears the frame arena when it has a block and
      touches nothing else. */
  function BeginFrame(c: Context): (r: Context)
    requires c.Valid()
    ensures r.Valid() && r.initialized == c.initialized
    ensures forall i :: 0 <= i < ARENA_COUNT && i != Frame.Index() ==> r.arenas[i] == c.arenas[i]
    ensures c.arenas[Frame.Index()].base != 0 ==> r.arenas[Frame.Index()].pos == 0
    ensures r.arenas[Frame.Index()].base == c.arenas[Frame.Index()].base
    ensures r.arenas[Frame.Index()].size == c.arenas[Frame.Index()].size
  {
    var f := c.arenas[Frame.Index()];
    if f.base != 0 then c.(arenas := c.arenas[Frame.Index() := Arena.Clear(f)]) else c
  }

  /** Whatever was allocated from the frame arena during a frame, the next
      `memory_begin_frame` gives back the frame arena as `memory_init` made it. */
  lemma FrameArenaResetsEachFrame(c: Context, size: usize, block: nat, reqs: seq<Arena.Request>)
    requires c.Valid() && c.arenas[Frame.Index()] == Arena.Create(size, block)
    ensures var used := c.(arenas := c.arenas[Frame.Index() := Arena.AllocAll(c.arenas[Frame.Index()], reqs)]);
      BeginFrame(used) == c
  {
    var f := c.arenas[Frame.Index()];
    var used := c.(arenas := c.arenas[Frame.Index() := Arena.AllocAll(f, reqs)]);
    assert BeginFrame(used).arenas == c.arenas;
  }

  /** The arena the global scratch pointer designates, if any. */
  function ResolveScratch(c: Context, g: Globals): (r: Option<Arena.Arena>)
    requires c.Valid()
    ensures g.scratch == NullScratch <==> r.None?
    ensures g.scratch == StorageScratch ==> r == Some(g.storage)
    ensures g.scratch == ContextScratch ==> r == Some(c.arenas[Scratch.Index()])
  {
    match g.scratch
    case NullScratch => None
    case StorageScratch => Some(g.storage)
    case ContextScratch => Some(c.arenas[Scratch.Index()])
  }

  /** `arena_scratch_init(size)`: replaces the storage arena (without freeing
      the previous one) and points the global scratch pointer at it. */
  function ScratchInit(g: Globals, size: usize, block: nat): (r: Globals)
    ensures r.scratch == StorageScratch && r.storage == Arena.Create(size, block)
  {
    Globals(Arena.Create(size, block), StorageScratch)
  }

  /** `arena_scratch_shutdown`: frees the storage arena only when the pointer
      designates it, and always clears the pointer. */
  function ScratchShutdown(g: Globals): (r: (Globals, seq<nat>))
    ensures r.0.scratch == NullScratch
    ensures g.scratch != StorageScratch ==> r.0.storage == g.storage && r.1 == []
    ensures g.scratch == StorageScratch ==>
      && r.0.storage == Arena.Arena(0, 0, 0)
      && r.1 == (if g.storage.base != 0 then [g.storage.base] else [])
  {
    if g.scratch == NullScratch then (g, [])
    else if g.scratch == StorageScratch then
      var (d, freed) := Arena.Destroy(g.storage);
      (Globals(d, NullScratch), freed)
    else (g.(scratch := NullScratch), [])
  }

  /** Initialising and shutting down the storage scratch frees exactly the
      block obtained, and leaves no scratch arena behind. */
  lemma ScratchInitShutdownBalanced(g: Globals, size: usize, block: nat)
    ensures var r := ScratchShutdown(ScratchInit(g, size, block));
      r.1 == (if block != 0 then [block] else []) && r.0.scratch == NullScratch
  {
  }

  /** `memory_scratch_begin`: a scope on the context's own scratch arena when
      it has a block; otherwise whatever the global scratch pointer gives
      (an empty scope when that is NULL or has no block). */
  function ScratchBegin(memory: Option<Context>, global: Option<Arena.Arena>): (t: Arena.Temp)
    requires memory.Some? ==> memory.value.Valid()
    ensures memory.Some? && memory.value.arenas[Scratch.Index()].base != 0 ==>
      t == Arena.TempBegin(memory.value.arenas[Scratch.Index()])
    ensures (memory.None? || memory.value.arenas[Scratch.Index()].base == 0) ==>
      (t.attached <==> global.Some? && global.value.base != 0)
    ensures (memory.None? || memory.value.arenas[Scratch.Index()].base == 0) ==>
      t == Arena.ScratchBegin(global)
  {
    if memory.Some? && memory.value.arenas[Scratch.Index()].base != 0 then
      Arena.TempBegin(memory.value.arenas[Scratch.Index()])
    else
      Arena.ScratchBegin(global)
  }
}
