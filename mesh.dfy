/**
 * The bookkeeping of a triangle mesh: an append-only vertex list whose
 * vertices carry their own position in it (`index`), an append-only
 * triangle list that refuses triangles with duplicated vertices, copying and
 * concatenation, the index buffer, and the open ("naked") edges.
 *
 * Positions, normals, colours and texture coordinates are carried but never
 * computed with. Which triangles are incident to a vertex (`triangles`) is
 * kept by code outside this model; the model reads it as given.
 */
module Meshes {
  import opened Exceptions
  import opened Geometry

  class Vertex {
    const position: Vector3
    const normal: Vector3
    const color: Color
    var index: int
    var uv: UV
    /** The triangles incident to this vertex. */
    var triangles: set<Triangle>

    constructor (position: Vector3, normal: Vector3, color: Color, index: int, uv: UV)
      ensures this.position == position && this.normal == normal && this.color == color
      ensures this.index == index && this.uv == uv && triangles == {}
    {
      this.position := position;
      this.normal := normal;
      this.color := color;
      this.index := index;
      this.uv := uv;
      this.triangles := {};
    }
  }

  /** Two of the three positions coincide. */
  predicate Duplicated(p: Vector3, q: Vector3, s: Vector3) {
    p == q || p == s || q == s
  }

  class Triangle {
    const a: Vertex
    const b: Vertex
    const c: Vertex
    const normal: Vector3

    /** A triangle with the given corners and normal. */
    constructor (a: Vertex, b: Vertex, c: Vertex, normal: Vector3)
      ensures this.a == a && this.b == b && this.c == c && this.normal == normal
    {
      this.a, this.b, this.c := a, b, c;
      this.normal := normal;
    }

    /** A triangle with the given corners; its normal is computed by code that is not part of this model. */
    constructor FromCorners(a: Vertex, b: Vertex, c: Vertex)
      ensures this.a == a && this.b == b && this.c == c
    {
      this.a, this.b, this.c := a, b, c;
    }

    /** The corners in order. */
    function Vertices(): (vs: seq<Vertex>)
      ensures |vs| == 3 && vs[0] == a && vs[1] == b && vs[2] == c
    {
      [a, b, c]
    }

    /** Two of the corners share a position: the corners have fewer than three distinct positions. */
    predicate HasDuplicatedVertices()
      ensures HasDuplicatedVertices() <==> |{a.position, b.position, c.position}| < 3
    {
      Duplicated(a.position, b.position, c.position)
    }
  }

  /** No object occurs twice. */
  predicate Distinct<T(==)>(s: seq<T>) {
    forall i, j :: 0 <= i < j < |s| ==> s[i] != s[j]
  }

  /** The position of the first triangle with duplicated vertices, or the length when there is none. */
  function FirstDuplicated(ts: seq<Triangle>): (k: nat)
    ensures k <= |ts|
    ensures forall i :: 0 <= i < k ==> !ts[i].HasDuplicatedVertices()
    ensures k < |ts| ==> ts[k].HasDuplicatedVertices()
  {
    if ts == [] then 0
    else if ts[0].HasDuplicatedVertices() then 0
    else 1 + FirstDuplicated(ts[1..])
  }

  /** The corners of all the triangles. */
  function CornerSet(ts: seq<Triangle>): (r: set<Vertex>)
    ensures forall t :: t in ts ==> t.a in r && t.b in r && t.c in r
  {
    if ts == [] then {}
    else CornerSet(ts[..|ts| - 1]) + {ts[|ts| - 1].a, ts[|ts| - 1].b, ts[|ts| - 1].c}
  }

  /** An index as stored in the index buffer: the `(ushort)` cast keeps its low 16 bits. */
  newtype ushort = x: int | 0 <= x < 0x1_0000

  function ToUshort(i: int): (r: ushort)
    ensures 0 <= i < 0x1_0000 ==> r as int == i
  {
    (i % 0x1_0000) as ushort
  }

  /** The index buffer: the three corner indices of each triangle, in triangle order. */
  function IndexBuffer(ts: seq<Triangle>): (r: seq<ushort>)
    reads CornerSet(ts)
    ensures |r| == 3 * |ts|
    ensures forall m :: 0 <= m < |r| ==> r[m] == ToUshort(ts[m / 3].Vertices()[m % 3].index)
  {
    if ts == [] then []
    else
      var t := ts[|ts| - 1];
      assert CornerSet(ts[..|ts| - 1]) <= CornerSet(ts);
      IndexBuffer(ts[..|ts| - 1]) + [ToUshort(t.a.index), ToUshort(t.b.index), ToUshort(t.c.index)]
  }

  /** What the graphics buffer holds for one vertex. */
  datatype BufferVertex = BufferVertex(position: Vector3, normal: Vector3, uv: UV, color: Color)

  datatype GraphicsBuffers = GraphicsBuffers(vertices: seq<BufferVertex>, indices: seq<ushort>)

  /** The corners j and (j + 1) mod 3 of `t` share exactly one incident triangle. */
  predicate IsNaked(t: Triangle, j: nat)
    requires j < 3
    reads t.a, t.b, t.c
  {
    |t.Vertices()[j].triangles * t.Vertices()[(j + 1) % 3].triangles| == 1
  }

  /** The line from corner j to corner (j + 1) mod 3. */
  function EdgeLine(t: Triangle, j: nat): Line
    requires j < 3
  {
    Line(t.Vertices()[j].position, t.Vertices()[(j + 1) % 3].position)
  }

  /** The naked edges among the first n edges of `t`. */
  function TriangleNakedEdges(t: Triangle, n: nat): (edges: seq<Line>)
    requires n <= 3
    reads t.a, t.b, t.c
    ensures |edges| <= n
  {
    if n == 0 then []
    else TriangleNakedEdges(t, n - 1) + (if IsNaked(t, n - 1) then [EdgeLine(t, n - 1)] else [])
  }

  /** The naked edges of all the triangles, triangle by triangle: at most three per triangle. */
  function NakedEdges(ts: seq<Triangle>): (edges: seq<Line>)
    reads CornerSet(ts)
    ensures |edges| <= 3 * |ts|
  {
    if ts == [] then []
    else
      assert CornerSet(ts[..|ts| - 1]) <= CornerSet(ts);
      NakedEdges(ts[..|ts| - 1]) + TriangleNakedEdges(ts[|ts| - 1], 3)
  }

  /** Each copy has its original's position, normal, colour and texture coordinate. */
  ghost predicate CopiedVertices(copies: seq<Vertex>, originals: seq<Vertex>)
    reads copies, originals
  {
    && |copies| == |originals|
    && forall i :: 0 <= i < |copies| ==>
      && copies[i].position == originals[i].position && copies[i].normal == originals[i].normal
      && copies[i].color == originals[i].color && copies[i].uv == originals[i].uv
  }

  /** Each copy has its original's normal and, at each corner, the vertex at the original corner's index. */
  ghost predicate CopiedTriangles(copies: seq<Triangle>, vertices: seq<Vertex>, originals: seq<Triangle>)
    reads CornerSet(originals)
  {
    && |copies| == |originals|
    && forall k :: 0 <= k < |copies| ==>
      && copies[k].normal == originals[k].normal
      && 0 <= originals[k].a.index < |vertices| && copies[k].a == vertices[originals[k].a.index]
      && 0 <= originals[k].b.index < |vertices| && copies[k].b == vertices[originals[k].b.index]
      && 0 <= originals[k].c.index < |vertices| && copies[k].c == vertices[originals[k].c.index]
  }

  class Mesh {
    var vertices: seq<Vertex>
    var triangles: seq<Triangle>

    /** Every vertex's index is its position in the vertex list. */
    ghost predicate IndexConsistent()
      reads this, vertices
    {
      forall i :: 0 <= i < |vertices| ==> vertices[i].index == i
    }

    /** Every corner of every triangle is one of the mesh's vertices. */
    ghost predicate CornersInMesh()
      reads this
    {
      forall k, j :: 0 <= k < |triangles| && 0 <= j < 3 ==> triangles[k].Vertices()[j] in vertices
    }

    /** An empty mesh. */
    constructor ()
      ensures vertices == [] && triangles == []
    {
      vertices := [];
      triangles := [];
    }

    /** A mesh over the given lists, as deserialisation builds it. */
    constructor FromLists(vertices: seq<Vertex>, triangles: seq<Triangle>)
      ensures this.vertices == vertices && this.triangles == triangles
    {
      this.vertices := vertices;
      this.triangles := triangles;
    }

    /**
     * Appends `v` and sets its index to its position. The mesh stays index
     * consistent exactly when it was and `v` was not already in it.
     */
    method AddVertex(v: Vertex) returns (r: Vertex)
      modifies this`vertices, v`index
      ensures r == v && vertices == old(vertices) + [v] && v.index == |vertices| - 1
      ensures IndexConsistent() <==> old(IndexConsistent()) && v !in old(vertices)
    {
      vertices := vertices + [v];
      v.index := |vertices| - 1;
      r := v;
      if v !in old(vertices) {
        forall i | 0 <= i < |old(vertices)|
          ensures vertices[i].index == old(vertices[i].index)
        {
          assert vertices[i] != v;
        }
      } else {
        var j :| 0 <= j < |old(vertices)| && old(vertices)[j] == v;
        assert vertices[j].index != j;
      }
    }

    /**
     * AddVertex without merging: always appends a new vertex with the given
     * data, at the end of the list.
     */
    method AddNewVertex(position: Vector3, uv: UV := UV(0.0, 0.0), normal: Vector3 := Origin,
                        color: Color := Color(0.0, 0.0, 0.0, 0.0)) returns (v: Vertex)
      modifies this`vertices
      ensures fresh(v) && vertices == old(vertices) + [v]
      ensures v.index == |vertices| - 1
      ensures v.position == position && v.uv == uv && v.normal == normal && v.color == color
      ensures IndexConsistent() <==> old(IndexConsistent())
    {
      v := new Vertex(position, normal, color, 0, UV(0.0, 0.0));
      v.uv := uv;
      vertices := vertices + [v];
      v.index := |vertices| - 1;
      forall i | 0 <= i < |old(vertices)|
        ensures vertices[i].index == old(vertices[i].index)
      {
        assert vertices[i] != v;
      }
    }

    /** Appends `t` unless it has duplicated vertices, which is an ArgumentException. */
    method AddTriangle(t: Triangle) returns (r: Result<Triangle>)
      modifies this`triangles
      ensures t.HasDuplicatedVertices() ==> r == Failure(ArgumentException) && triangles == old(triangles)
      ensures !t.HasDuplicatedVertices() ==> r == Success(t) && triangles == old(triangles) + [t]
    {
      if t.HasDuplicatedVertices() {
        return Failure(ArgumentException);
      }
      triangles := triangles + [t];
      return Success(t);
    }

    /** Builds the triangle (a, b, c) and adds it as AddTriangle does. */
    method AddNewTriangle(a: Vertex, b: Vertex, c: Vertex) returns (r: Result<Triangle>)
      modifies this`triangles
      ensures Duplicated(a.position, b.position, c.position) ==>
        r == Failure(ArgumentException) && triangles == old(triangles)
      ensures !Duplicated(a.position, b.position, c.position) ==>
        && r.Success? && fresh(r.value) && r.value.Vertices() == [a, b, c]
        && triangles == old(triangles) + [r.value]
    {
      var t := new Triangle.FromCorners(a, b, c);
      if t.HasDuplicatedVertices() {
        return Failure(ArgumentException);
      }
      triangles := triangles + [t];
      return Success(t);
    }

    /**
     * What copying `t` into a copy of this mesh throws, if anything: an
     * index outside the vertex list, or corners whose copies share a position.
     */
    function CopyError(t: Triangle): Option<Exception>
      reads this, t.a, t.b, t.c
    {
      if !(0 <= t.a.index < |vertices| && 0 <= t.b.index < |vertices| && 0 <= t.c.index < |vertices|)
      then Some(ArgumentOutOfRangeException)
      else if Duplicated(vertices[t.a.index].position, vertices[t.b.index].position, vertices[t.c.index].position)
      then Some(ArgumentException)
      else None
    }

    /**
     * The copy constructor: a new mesh with a copy of every vertex, re-indexed
     * by position, and for every triangle a new triangle over the copies at
     * its corners' indices. The first triangle that cannot be copied makes
     * the whole copy fail.
     */
    static method Copy(mesh: Mesh) returns (r: Result<Mesh>)
      ensures r.Success? <==> forall k :: 0 <= k < |mesh.triangles| ==> mesh.CopyError(mesh.triangles[k]) == None
      ensures r.Failure? ==> exists k :: (0 <= k < |mesh.triangles| &&
        (forall i :: 0 <= i < k ==> mesh.CopyError(mesh.triangles[i]) == None) &&
        mesh.CopyError(mesh.triangles[k]) == Some(r.error))
      ensures r.Success? ==>
        var m := r.value;
        && fresh(m) && m.IndexConsistent()
        && CopiedVertices(m.vertices, mesh.vertices) && (forall v :: v in m.vertices ==> fresh(v))
        && (forall v :: v in m.vertices ==> v.triangles == {})
        && CopiedTriangles(m.triangles, m.vertices, mesh.triangles)
        && (forall t :: t in m.triangles ==> fresh(t))
    {
      var m := new Mesh();
      m.AddVertexCopies(mesh);
      var copied := m.AddTriangleCopies(mesh);
      if copied.Fail? {
        return Failure(copied.error);
      }
      return Success(m);
    }

    /** The copy constructor's first loop: a fresh copy of each of `mesh`'s vertices, appended in order. */
    method AddVertexCopies(mesh: Mesh)
      requires vertices == [] && mesh != this
      modifies this`vertices
      ensures IndexConsistent() && CopiedVertices(vertices, mesh.vertices)
      ensures forall v :: v in vertices ==> fresh(v)
      ensures forall v :: v in vertices ==> v.triangles == {}
    {
      for i := 0 to |mesh.vertices|
        invariant IndexConsistent()
        invariant CopiedVertices(vertices, mesh.vertices[..i])
        invariant forall v :: v in vertices ==> fresh(v)
        invariant forall v :: v in vertices ==> v.triangles == {}
      {
        var v := mesh.vertices[i];
        var copy := new Vertex(v.position, v.normal, v.color, v.index, v.uv);
        var _ := AddVertex(copy);
        assert mesh.vertices[..i + 1] == mesh.vertices[..i] + [v];
      }
      assert mesh.vertices[..|mesh.vertices|] == mesh.vertices;
    }

    /**
     * The copy constructor's second loop: copies `mesh`'s triangles in order;
     * the first triangle that cannot be copied stops the loop.
     */
    method AddTriangleCopies(mesh: Mesh) returns (r: Outcome)
      requires triangles == [] && mesh != this
      requires CopiedVertices(vertices, mesh.vertices)
      modifies this`triangles
      ensures r == Pass <==> forall k :: 0 <= k < |mesh.triangles| ==> mesh.CopyError(mesh.triangles[k]) == None
      ensures r.Fail? ==> exists k :: (0 <= k < |mesh.triangles| &&
        (forall i :: 0 <= i < k ==> mesh.CopyError(mesh.triangles[i]) == None) &&
        mesh.CopyError(mesh.triangles[k]) == Some(r.error))
      ensures r == Pass ==> CopiedTriangles(triangles, vertices, mesh.triangles) && forall t :: t in triangles ==> fresh(t)
    {
      for k := 0 to |mesh.triangles|
        invariant forall i :: 0 <= i < k ==> mesh.CopyError(mesh.triangles[i]) == None
        invariant CopiedTriangles(triangles, vertices, mesh.triangles[..k])
        invariant forall t :: t in triangles ==> fresh(t)
      {
        var step := CopyTriangle(mesh, k);
        if step.Fail? {
          return step;
        }
      }
      assert mesh.triangles[..|mesh.triangles|] == mesh.triangles;
      return Pass;
    }

    /**
     * One iteration of the copy constructor's second loop: a fresh triangle
     * over the copies at the corners' indices of `mesh`'s k-th triangle,
     * added with AddTriangle.
     */
    method CopyTriangle(mesh: Mesh, k: nat) returns (r: Outcome)
      requires mesh != this && k < |mesh.triangles|
      requires CopiedVertices(vertices, mesh.vertices)
      requires CopiedTriangles(triangles, vertices, mesh.triangles[..k])
      modifies this`triangles
      ensures r == Pass <==> mesh.CopyError(mesh.triangles[k]) == None
      ensures r.Fail? ==> mesh.CopyError(mesh.triangles[k]) == Some(r.error) && triangles == old(triangles)
      ensures r == Pass ==> CopiedTriangles(triangles, vertices, mesh.triangles[..k + 1])
      ensures r == Pass ==> exists t :: fresh(t) && triangles == old(triangles) + [t]
    {
      var triangle := mesh.triangles[k];
      var corners := triangle.Vertices();
      if !(0 <= corners[0].index < |vertices| && 0 <= corners[1].index < |vertices| && 0 <= corners[2].index < |vertices|) {
        return Fail(ArgumentOutOfRangeException);
      }
      var copy := new Triangle(vertices[corners[0].index], vertices[corners[1].index], vertices[corners[2].index], triangle.normal);
      assert copy.HasDuplicatedVertices() <==> mesh.CopyError(triangle) == Some(ArgumentException) by {
        assert copy.a.position == mesh.vertices[triangle.a.index].position;
        assert copy.b.position == mesh.vertices[triangle.b.index].position;
        assert copy.c.position == mesh.vertices[triangle.c.index].position;
      }
      var added := AddTriangle(copy);
      if added.Failure? {
        return Fail(ArgumentException);
      }
      assert mesh.triangles[..k + 1] == mesh.triangles[..k] + [triangle];
      return Pass;
    }

    /**
     * Appends the other mesh's vertices (re-indexing them, in place, to
     * their new positions) and then its triangles; the first triangle with
     * duplicated vertices stops the copy with an ArgumentException, after
     * the triangles before it were added.
     */
    method AddMesh(other: Mesh) returns (r: Outcome)
      requires other != this
      modifies this`vertices, this`triangles, other.vertices
      ensures vertices == old(vertices) + other.vertices
      ensures var k := FirstDuplicated(other.triangles);
        && triangles == old(triangles) + other.triangles[..k]
        && r == if k == |other.triangles| then Pass else Fail(ArgumentException)
      ensures Distinct(other.vertices) ==>
        forall i :: 0 <= i < |other.vertices| ==> other.vertices[i].index == old(|vertices|) + i
      ensures (old(IndexConsistent()) && Distinct(other.vertices) &&
               forall i :: 0 <= i < |other.vertices| ==> other.vertices[i] !in old(vertices)) ==> IndexConsistent()
      ensures forall i :: 0 <= i < |other.vertices| ==>
        other.vertices[i].uv == old(other.vertices[i].uv) && other.vertices[i].triangles == old(other.vertices[i].triangles)
    {
      AppendVertices(other.vertices);
      r := AppendTriangles(other.triangles);
    }

    /** AddMesh's first loop: AddVertex on each of `vs`, in order. */
    method AppendVertices(vs: seq<Vertex>)
      modifies this`vertices, vs
      ensures vertices == old(vertices) + vs
      ensures Distinct(vs) ==> forall i :: 0 <= i < |vs| ==> vs[i].index == old(|vertices|) + i
      ensures (old(IndexConsistent()) && Distinct(vs) &&
               forall i :: 0 <= i < |vs| ==> vs[i] !in old(vertices)) ==> IndexConsistent()
      ensures forall i :: 0 <= i < |vs| ==> vs[i].uv == old(vs[i].uv) && vs[i].triangles == old(vs[i].triangles)
    {
      var n0 := |vertices|;
      var consistent := IndexConsistent() && Distinct(vs) && (forall i :: 0 <= i < |vs| ==> vs[i] !in vertices);
      for i := 0 to |vs|
        invariant vertices == old(vertices) + vs[..i]
        invariant Distinct(vs) ==> forall p :: 0 <= p < i ==> vs[p].index == n0 + p
        invariant consistent ==> IndexConsistent()
        invariant forall p :: 0 <= p < |vs| ==> vs[p].uv == old(vs[p].uv) && vs[p].triangles == old(vs[p].triangles)
      {
        assert vs[..i + 1] == vs[..i] + [vs[i]];
        if consistent {
          assert vs[i] !in vs[..i];
        }
        var _ := AddVertex(vs[i]);
      }
      assert vs[..|vs|] == vs;
    }

    /** AddMesh's second loop: AddTriangle on each of `ts`, in order, up to the first failure. */
    method AppendTriangles(ts: seq<Triangle>) returns (r: Outcome)
      modifies this`triangles
      ensures var k := FirstDuplicated(ts);
        && triangles == old(triangles) + ts[..k]
        && r == if k == |ts| then Pass else Fail(ArgumentException)
    {
      for i := 0 to |ts|
        invariant i <= FirstDuplicated(ts)
        invariant triangles == old(triangles) + ts[..i]
      {
        var added := AddTriangle(ts[i]);
        if added.Failure? {
          return Fail(added.error);
        }
        assert ts[..i + 1] == ts[..i] + [ts[i]];
      }
      assert ts[..|ts|] == ts;
      return Pass;
    }

    /**
     * GetBuffers: one buffer vertex per vertex, and three indices per
     * triangle, each corner's index cut to 16 bits.
     */
    method GetBuffers() returns (buffers: GraphicsBuffers)
      ensures |buffers.vertices| == |vertices|
      ensures forall i :: 0 <= i < |vertices| ==>
        buffers.vertices[i] == BufferVertex(vertices[i].position, vertices[i].normal, vertices[i].uv, vertices[i].color)
      ensures buffers.indices == IndexBuffer(triangles)
    {
      var bufferVertices: seq<BufferVertex> := [];
      for i := 0 to |vertices|
        invariant |bufferVertices| == i
        invariant forall p :: 0 <= p < i ==>
          bufferVertices[p] == BufferVertex(vertices[p].position, vertices[p].normal, vertices[p].uv, vertices[p].color)
      {
        var v := vertices[i];
        bufferVertices := bufferVertices + [BufferVertex(v.position, v.normal, v.uv, v.color)];
      }
      var indices: seq<ushort> := [];
      for i := 0 to |triangles|
        invariant indices == IndexBuffer(triangles[..i])
      {
        var t := triangles[i];
        assert triangles[..i + 1][..i] == triangles[..i];
        indices := indices + [ToUshort(t.Vertices()[0].index)];
        indices := indices + [ToUshort(t.Vertices()[1].index)];
        indices := indices + [ToUshort(t.Vertices()[2].index)];
      }
      assert triangles[..|triangles|] == triangles;
      buffers := GraphicsBuffers(bufferVertices, indices);
    }

    /**
     * GetNakedEdges: for each triangle and each j in 0..2, the line from
     * corner j to corner (j + 1) mod 3 when those corners share exactly one
     * incident triangle.
     */
    method GetNakedEdges() returns (edges: seq<Line>)
      ensures edges == NakedEdges(triangles)
    {
      edges := [];
      for i := 0 to |triangles|
        invariant edges == NakedEdges(triangles[..i])
      {
        var t := triangles[i];
        assert triangles[..i + 1][..i] == triangles[..i];
        for j := 0 to 3
          invariant edges == NakedEdges(triangles[..i]) + TriangleNakedEdges(t, j)
        {
          var v := t.Vertices()[j];
          var v2 := t.Vertices()[(j + 1) % 3];
          var edgeTriangles := v.triangles * v2.triangles;
          if |edgeTriangles| == 1 {
            edges := edges + [Line(v.position, v2.position)];
          }
        }
      }
      assert triangles[..|triangles|] == triangles;
    }
  }

  /**
   * What copying a triangle throws: ArgumentOutOfRangeException exactly when
   * a corner's index is outside the vertex list, nothing exactly when all
   * are inside and the vertices there have three distinct positions, and
   * never IndexOutOfRangeException.
   */
  lemma CopyErrorCases(mesh: Mesh, t: Triangle)
    ensures mesh.CopyError(t) != Some(IndexOutOfRangeException)
    ensures mesh.CopyError(t) == Some(ArgumentOutOfRangeException) <==>
      exists v :: v in t.Vertices() && !(0 <= v.index < |mesh.vertices|)
    ensures mesh.CopyError(t) == None <==>
      && (forall v :: v in t.Vertices() ==> 0 <= v.index < |mesh.vertices|)
      && |{mesh.vertices[t.a.index].position, mesh.vertices[t.b.index].position, mesh.vertices[t.c.index].position}| == 3
  {
  }

  /**
   * In an index-consistent mesh whose triangles use its own vertices, the
   * index buffer addresses each triangle's corners exactly when every
   * corner's index fits in 16 bits; a corner at 65536 or beyond wraps onto
   * another vertex.
   */
  lemma IndexBufferResolves(mesh: Mesh)
    requires mesh.IndexConsistent() && mesh.CornersInMesh()
    ensures var ib := IndexBuffer(mesh.triangles);
      (forall m :: 0 <= m < |ib| ==> ib[m] as int < |mesh.vertices| &&
                                      mesh.vertices[ib[m]] == mesh.triangles[m / 3].Vertices()[m % 3])
      <==>
      (forall k, j :: 0 <= k < |mesh.triangles| && 0 <= j < 3 ==> mesh.triangles[k].Vertices()[j].index < 0x1_0000)
  {
    var ib := IndexBuffer(mesh.triangles);
    var ts := mesh.triangles;
    forall k, j | 0 <= k < |ts| && 0 <= j < 3
      ensures var v := ts[k].Vertices()[j];
        0 <= v.index < |mesh.vertices| && mesh.vertices[v.index] == v
    {
      var v := ts[k].Vertices()[j];
      var p :| 0 <= p < |mesh.vertices| && mesh.vertices[p] == v;
    }
    if forall k, j :: 0 <= k < |ts| && 0 <= j < 3 ==> ts[k].Vertices()[j].index < 0x1_0000 {
      forall m | 0 <= m < |ib|
        ensures ib[m] as int < |mesh.vertices| && mesh.vertices[ib[m]] == ts[m / 3].Vertices()[m % 3]
      {
        var v := ts[m / 3].Vertices()[m % 3];
        assert ib[m] as int == v.index;
      }
    } else {
      var k, j :| 0 <= k < |ts| && 0 <= j < 3 && ts[k].Vertices()[j].index >= 0x1_0000;
      var m := 3 * k + j;
      assert m / 3 == k && m % 3 == j;
      var v := ts[k].Vertices()[j];
      assert ib[m] as int == v.index % 0x1_0000 < v.index;
      if ib[m] as int < |mesh.vertices| {
        assert mesh.vertices[ib[m]].index == ib[m] as int;
        assert mesh.vertices[ib[m]] != v;
      }
    }
  }

  /** Every naked edge joins corners j and (j + 1) mod 3 of some triangle, and those corners share exactly one triangle. */
  lemma {:induction false} NakedEdgesSound(ts: seq<Triangle>)
    ensures forall e :: e in NakedEdges(ts) ==>
      exists k, j :: 0 <= k < |ts| && 0 <= j < 3 && IsNaked(ts[k], j) && e == EdgeLine(ts[k], j)
  {
    if ts != [] {
      var init := ts[..|ts| - 1];
      var t := ts[|ts| - 1];
      NakedEdgesSound(init);
      TriangleNakedEdgesSound(t, 3);
      forall e | e in NakedEdges(ts)
        ensures exists k, j :: 0 <= k < |ts| && 0 <= j < 3 && IsNaked(ts[k], j) && e == EdgeLine(ts[k], j)
      {
        if e in NakedEdges(init) {
          var k, j :| 0 <= k < |init| && 0 <= j < 3 && IsNaked(init[k], j) && e == EdgeLine(init[k], j);
          assert ts[k] == init[k];
        } else {
          var j :| 0 <= j < 3 && IsNaked(t, j) && e == EdgeLine(t, j);
          assert ts[|ts| - 1] == t;
        }
      }
    }
  }

  lemma {:induction false} TriangleNakedEdgesSound(t: Triangle, n: nat)
    requires n <= 3
    ensures forall e :: e in TriangleNakedEdges(t, n) ==> exists j :: 0 <= j < n && IsNaked(t, j) && e == EdgeLine(t, j)
  {
    if n > 0 {
      TriangleNakedEdgesSound(t, n - 1);
    }
  }

  /** Every pair of consecutive corners that shares exactly one triangle gives a naked edge. */
  lemma {:induction false} NakedEdgesComplete(ts: seq<Triangle>, k: nat, j: nat)
    requires k < |ts| && j < 3 && IsNaked(ts[k], j)
    ensures EdgeLine(ts[k], j) in NakedEdges(ts)
  {
    var init := ts[..|ts| - 1];
    if k < |ts| - 1 {
      assert init[k] == ts[k];
      NakedEdgesComplete(init, k, j);
    } else {
      TriangleNakedEdgesComplete(ts[k], 3, j);
    }
  }

  lemma {:induction false} TriangleNakedEdgesComplete(t: Triangle, n: nat, j: nat)
    requires j < n <= 3 && IsNaked(t, j)
    ensures EdgeLine(t, j) in TriangleNakedEdges(t, n)
  {
    if j < n - 1 {
      TriangleNakedEdgesComplete(t, n - 1, j);
    }
  }

  /**
   * Triangles whose corners record no incident triangles have no naked
   * edges; so GetNakedEdges on a successful copy, whose vertices start with
   * empty incidence sets, reports nothing.
   */
  lemma {:induction false} NoIncidenceNoNakedEdges(ts: seq<Triangle>)
    requires forall t :: t in ts ==> t.a.triangles == {} && t.b.triangles == {} && t.c.triangles == {}
    ensures NakedEdges(ts) == []
  {
    if ts != [] {
      var init := ts[..|ts| - 1];
      var t := ts[|ts| - 1];
      assert forall u :: u in init ==> u in ts;
      NoIncidenceNoNakedEdges(init);
      assert t in ts;
      assert !IsNaked(t, 0) && !IsNaked(t, 1) && !IsNaked(t, 2);
      assert TriangleNakedEdges(t, 1) == [];
      assert TriangleNakedEdges(t, 2) == [];
      assert TriangleNakedEdges(t, 3) == [];
    }
  }

  /** Two corners that both belong to two different triangles are never a naked pair. */
  lemma SharedEdgeIsNotNaked(t: Triangle, j: nat, other: Triangle)
    requires j < 3 && other != t
    requires t in t.Vertices()[j].triangles && t in t.Vertices()[(j + 1) % 3].triangles
    requires other in t.Vertices()[j].triangles && other in t.Vertices()[(j + 1) % 3].triangles
    ensures !IsNaked(t, j)
  {
    var shared := t.Vertices()[j].triangles * t.Vertices()[(j + 1) % 3].triangles;
    assert {t, other} <= shared;
    assert shared == {t, other} + (shared - {t, other});
    assert |{t, other}| == 2;
  }
}
