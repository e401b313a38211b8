/** Meshes of `geometry/mesh.cpp`: a vertex array and an index array carved
    out of an arena. The arena's memory contents are not modelled, so the
    arrays' contents live in the mesh record itself; freshly allocated
    arrays read as zeros. */
module Mesh {
  import opened Common
  import Arena
  import Bits

  /** `sizeof(Vertex)`: six 32-bit floats. */
  const VERTEX_SIZE: nat := 24
  /** `alignof(Vertex)` and `alignof(u32)`. */
  const VERTEX_ALIGN: nat := 4
  const INDEX_SIZE: nat := 4
  const INDEX_ALIGN: nat := 4

  /** `Vertex`: a position and a colour. The floats are only copied, never
      computed with, so they are modelled as reals. */
  datatype Vertex = Vertex(position: (real, real, real), color: (real, real, real))

  const ZERO_VERTEX := Vertex((0.0, 0.0, 0.0), (0.0, 0.0, 0.0))

  /** `Mesh`: the two array pointers (0 for NULL), their element counts and
      the arrays' contents. */
  datatype Mesh = Mesh(vertices: nat, vertexCount: u32, indices: nat, indexCount: u32,
                       vertexData: seq<Vertex>, indexData: seq<u32>)

  /** `mesh_init`: the all-zero mesh. */
  const EMPTY_MESH := Mesh(0, 0, 0, 0, [], [])

  /** The outcome of `mesh_allocate`. */
  datatype MeshAlloc = MeshAlloc(ok: bool, mesh: Mesh, arena: Arena.Arena)

  /** `mesh_allocate(mesh, vertex_count, index_count, arena)`: pushes the
      vertex array, then the index array; a NULL from either push fails the
      call with the counts left at 0 (a vertex array already pushed stays
      consumed). A zero-length push from an arena without a block yields
      NULL too and therefore fails. */
  function Allocate(vertexCount: u32, indexCount: u32, a: Arena.Arena): (r: MeshAlloc)
    requires a.Valid()
    ensures r.arena.base == a.base && r.arena.size == a.size && r.arena.Valid()
    ensures r.ok <==> r.mesh.vertices != 0 && r.mesh.indices != 0
    ensures r.ok ==>
      && r.mesh.vertexCount == vertexCount && r.mesh.indexCount == indexCount
      && |r.mesh.vertexData| == vertexCount && |r.mesh.indexData| == indexCount
    ensures !r.ok ==> r.mesh.vertexCount == 0 && r.mesh.indexCount == 0
    ensures r.mesh.vertices == 0 ==> r.mesh == EMPTY_MESH
    ensures r.ok ==>
      && a.base + a.pos <= r.mesh.vertices
      && r.mesh.vertices + VERTEX_SIZE * vertexCount <= r.mesh.indices
      && r.mesh.indices + INDEX_SIZE * indexCount == a.base + r.arena.pos
      && (r.mesh.vertices - a.base) % VERTEX_ALIGN == 0
      && (r.mesh.indices - a.base) % INDEX_ALIGN == 0
  {
    var v := Arena.AllocAligned(a, VERTEX_SIZE * vertexCount, VERTEX_ALIGN);
    assert Bits.IsPowerOfTwo(2);
    if v.Ptr() == 0 then
      MeshAlloc(false, EMPTY_MESH, v.arena)
    else
      var i := Arena.AllocAligned(v.arena, INDEX_SIZE * indexCount, INDEX_ALIGN);
      if i.Ptr() == 0 then
        MeshAlloc(false, Mesh(v.Ptr(), 0, 0, 0, [], []), i.arena)
      else
        MeshAlloc(true, Mesh(v.Ptr(), vertexCount, i.Ptr(), indexCount,
                             seq(vertexCount, _ => ZERO_VERTEX), seq(indexCount, _ => 0)), i.arena)
  }

  /** From an arena with a block and a 4-aligned position, `mesh_allocate`
      succeeds exactly when both arrays fit in the space left. */
  lemma AllocateFitsExactly(vertexCount: u32, indexCount: u32, a: Arena.Arena)
    requires a.Valid() && a.base != 0 && a.pos % 4 == 0
    ensures Allocate(vertexCount, indexCount, a).ok <==>
      a.pos + VERTEX_SIZE * vertexCount + INDEX_SIZE * indexCount <= a.size
  {
    assert Bits.IsPowerOfTwo(2);
    var vb := VERTEX_SIZE * vertexCount;
    Bits.ModUnique(a.pos + vb, 4, a.pos / 4 + 6 * vertexCount, 0);
    Arena.AlignUpOfAligned(a.pos, 4);
    Arena.AlignUpOfAligned(a.pos + vb, 4);
    var v := Arena.AllocAligned(a, vb, VERTEX_ALIGN);
    assert v.ok <==> a.pos + vb <= a.size;
    if v.ok {
      assert v.Ptr() != 0;
      assert v.arena.pos == a.pos + vb;
    }
  }
}

/** The quad of `geometry/quad.cpp`: four coloured corners of a centred
    square and two triangles over them. */
module Quad {
  import opened Common
  import Arena
  import opened Mesh

  type Color = (real, real, real)

  /** The default corner colours of `quad_create_arena`: red, green, blue,
      yellow. */
  const DEFAULT_COLORS: seq<Color> := [(1.0, 0.0, 0.0), (0.0, 1.0, 0.0), (0.0, 0.0, 1.0), (1.0, 1.0, 0.0)]

  /** The corner positions: top-left, top-right, bottom-right, bottom-left. */
  const CORNERS: seq<(real, real, real)> :=
    [(-0.5, -0.5, 0.0), (0.5, -0.5, 0.0), (0.5, 0.5, 0.0), (-0.5, 0.5, 0.0)]

  /** The index list: triangles (0, 1, 2) and (2, 3, 0). */
  const QUAD_INDICES: seq<u32> := [0, 1, 2, 2, 3, 0]

  /** `quad_create_colored_arena(mesh, colors, arena)`: allocates 4 vertices
      and 6 indices and fills them; when the allocation fails the mesh is left
      as `mesh_allocate` left it. */
  function CreateColored(colors: seq<Color>, a: Arena.Arena): (r: MeshAlloc)
    requires |colors| == 4 && a.Valid()
    ensures r.ok <==> Allocate(4, 6, a).ok
    ensures !r.ok ==> r == Allocate(4, 6, a)
    ensures r.ok ==>
      && r.mesh.vertexCount == 4 && r.mesh.indexCount == 6
      && r.mesh.indexData == QUAD_INDICES
      && |r.mesh.vertexData| == 4
      && forall k :: 0 <= k < 4 ==>
           r.mesh.vertexData[k].position == CORNERS[k] && r.mesh.vertexData[k].color == colors[k]
  {
    var m := Allocate(4, 6, a);
    if !m.ok then m
    else
      var verts := seq(4, k requires 0 <= k < 4 => Vertex(CORNERS[k], colors[k]));
      m.(mesh := m.mesh.(vertexData := verts, indexData := QUAD_INDICES))
  }

  /** `quad_create_arena`: the quad in the default colours. */
  function Create(a: Arena.Arena): (r: MeshAlloc)
    requires a.Valid()
    ensures r.ok ==> |r.mesh.vertexData| == 4 && forall k :: 0 <= k < 4 ==> r.mesh.vertexData[k].color == DEFAULT_COLORS[k]
    ensures r.ok <==> Allocate(4, 6, a).ok
  {
    CreateColored(DEFAULT_COLORS, a)
  }

  /** Twice the signed area of the triangle over three corners, in the
      x/y plane. */
  function Area2(p: (real, real, real), q: (real, real, real), s: (real, real, real)): real
  {
    (q.0 - p.0) * (s.1 - p.1) - (q.1 - p.1) * (s.0 - p.0)
  }

  /** The index list names only the four corners, in whole triangles;
      corners 0 and 2 appear twice and corners 1 and 3 once. */
  lemma IndicesFacts()
    ensures forall k :: 0 <= k < |QUAD_INDICES| ==> QUAD_INDICES[k] < 4
    ensures |QUAD_INDICES| % 3 == 0
    ensures multiset(QUAD_INDICES)[0] == 2 && multiset(QUAD_INDICES)[2] == 2
    ensures multiset(QUAD_INDICES)[1] == 1 && multiset(QUAD_INDICES)[3] == 1
  {
  }

  /** Both triangles over the corners wind the same way and together have
      the area of the unit square. */
  lemma CornerAreas()
    ensures var t1 := Area2(CORNERS[QUAD_INDICES[0]], CORNERS[QUAD_INDICES[1]], CORNERS[QUAD_INDICES[2]]);
      var t2 := Area2(CORNERS[QUAD_INDICES[3]], CORNERS[QUAD_INDICES[4]], CORNERS[QUAD_INDICES[5]]);
      t1 > 0.0 && t2 > 0.0 && (t1 + t2) / 2.0 == 1.0
  {
  }

  /** Every index of a created quad names one of its vertices, corners 0
      and 2 are shared by both triangles and corners 1 and 3 belong to one
      each, the two triangles wind the same way, and together they cover
      the unit square. */
  lemma QuadIsWellFormed(colors: seq<Color>, a: Arena.Arena)
    requires |colors| == 4 && a.Valid()
    ensures var r := CreateColored(colors, a);
      r.ok ==>
        && (forall k :: 0 <= k < r.mesh.indexCount ==> r.mesh.indexData[k] < r.mesh.vertexCount)
        && r.mesh.indexCount % 3 == 0
        && multiset(r.mesh.indexData)[0] == 2 && multiset(r.mesh.indexData)[2] == 2
        && multiset(r.mesh.indexData)[1] == 1 && multiset(r.mesh.indexData)[3] == 1
        && var v := r.mesh.vertexData;
           var t1 := Area2(v[QUAD_INDICES[0]].position, v[QUAD_INDICES[1]].position, v[QUAD_INDICES[2]].position);
           var t2 := Area2(v[QUAD_INDICES[3]].position, v[QUAD_INDICES[4]].position, v[QUAD_INDICES[5]].position);
           t1 > 0.0 && t2 > 0.0 && (t1 + t2) / 2.0 == 1.0
  {
    var r := CreateColored(colors, a);
    if r.ok {
      IndicesFacts();
      CornerAreas();
      var v := r.mesh.vertexData;
      assert v[0].position == CORNERS[0] && v[1].position == CORNERS[1];
      assert v[2].position == CORNERS[2] && v[3].position == CORNERS[3];
    }
  }
}
