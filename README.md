# Elements core in Dafny

A Dafny model of four parts of the Elements building-geometry library and
its `hypar` command-line tool. Each part has proofs about the model.

- **Meshes** (`mesh.dfy`): the triangle mesh. It has a vertex list and a
  triangle list, and each vertex carries its own index into the vertex list.
  - The constructors: empty, from lists, and the copying constructor.
  - Adding vertices (by object, or a new vertex built from its data) and
    triangles (by object, or built from three vertices).
  - Merging another mesh into this one.
  - The render buffers: one buffer vertex per vertex, and three 16-bit
    indices per triangle.
  - The naked edges: triangle edges whose two corners share exactly one
    incident triangle.
- **Function names** (`function_names.dfy`): how `hypar new` cleans a
  function name, and the PascalCase class name it derives from one.
- **Parametric profiles** (`parametric_profile.dfy`): a profile whose
  perimeter and voids are lists of (X, Y) expression strings. The
  constructor compiles each list into the source text of a polygon
  constructor. `SetGeometry` evaluates that text and stores the resulting
  geometry.
- **Obstacles** (`obstacle.dfy`): adaptive-grid obstacles. They are built
  from a column, a wall, a bounding box, an extruded 2D polygon or a line.
  Each is a point list, an offset, a perimeter flag and an optional frame.

The shared value types are in `exceptions.dfy` and `geometry.dfy`.
`exceptions.dfy` has the C# exceptions the core throws, and
`Result`/`Outcome`/`Option`. `geometry.dfy` has vectors, lines, polygons
and frames, with exact arithmetic on reals.

Modelling choices:
- A thrown exception is returned as a `Failure`/`Fail` value. The copying
  constructor can throw, so it is the static method `Mesh.Copy`, which
  returns a `Result<Mesh>`.
- Mesh, vertex, obstacle and profile objects are classes whose fields the
  methods update. Their lists are `seq` fields.
- Evaluating a C# script is the function parameter `evaluate` of
  `SetGeometry`.
- `Line.Direction` and `Vector3.IsParallelTo` are function parameters of
  the obstacle factories. So is `BBox3.Corners`.
- `(ushort)` casts are written out as reduction modulo 65536.

## Model

| member | source | states |
|---|---|---|
| Meshes.Mesh.constructor | Elements/src/Geometry/Mesh.cs:62-67 | the new mesh has no vertices and no triangles |
| Meshes.Mesh.FromLists | Elements/src/Geometry/Mesh.cs:35-39 | the mesh holds exactly the given vertex and triangle lists |
| Meshes.Triangle.constructor | Elements/src/Generate/Geometry/Triangle.g.cs:28-43 | the triangle holds the given corners and normal |
| Meshes.Vertex.constructor | Elements/src/Geometry/Mesh.cs:50 | the vertex holds the given position, normal, colour, index and UV, and no incident triangles yet |
| Meshes.Triangle.FromCorners | Elements/src/Geometry/Mesh.cs:184 | the triangle has corners a, b and c, in that order |
| Meshes.Triangle.HasDuplicatedVertices | Elements/src/Geometry/Mesh.cs:199 | holds exactly when the three corners have fewer than three distinct positions |
| Meshes.Mesh.AddVertex | Elements/src/Geometry/Mesh.cs:253-258 | `v` becomes the last vertex, with index old count; earlier vertices are unchanged. The mesh stays index-consistent (vertex i has index i) exactly when it was so and `v` was not already in it |
| Meshes.Mesh.AddNewVertex | Elements/src/Geometry/Mesh.cs:219-247 | without merging: a fresh vertex with the given position, UV, normal and colour (zero by default, as in the source) is appended with index count-1; index consistency is kept both ways |
| Meshes.Mesh.AddTriangle | Elements/src/Geometry/Mesh.cs:197-205 | duplicated corners give ArgumentException and leave the triangles unchanged; otherwise `t` is appended and returned |
| Meshes.Mesh.AddNewTriangle | Elements/src/Geometry/Mesh.cs:182-191 | two corners at the same position give ArgumentException and no change; otherwise a fresh triangle over (a, b, c) is appended and returned |
| Meshes.Mesh.Copy | Elements/src/Geometry/Mesh.cs:44-57 | succeeds exactly when every triangle copies cleanly; otherwise fails with the first failing triangle's exception. On success, a fresh mesh: vertex copies with the same data and index i and no incident triangles, and one fresh triangle per original over the copies at its corners' indices, with the same normal |
| Meshes.CopyErrorCases | Elements/src/Geometry/Mesh.cs:54-55 | copying a triangle throws ArgumentOutOfRangeException exactly when some corner index is outside the vertex list; it throws nothing exactly when all are inside and the vertices there have three distinct positions; IndexOutOfRangeException never |
| Meshes.Mesh.AddVertexCopies | Elements/src/Geometry/Mesh.cs:48-51 | the vertex list becomes fresh copies of the other mesh's vertices, in order; vertex i has index i and carries no incident triangles |
| Meshes.Mesh.AddTriangleCopies | Elements/src/Geometry/Mesh.cs:52-56 | Pass exactly when no triangle has a copy error; on failure, the error is the first failing triangle's; on Pass, every triangle is copied over the copied vertices |
| Meshes.Mesh.CopyTriangle | Elements/src/Geometry/Mesh.cs:54-55 | an out-of-range corner index gives ArgumentOutOfRangeException; corners whose copies share a position give ArgumentException; otherwise one fresh triangle over the copies is appended |
| Meshes.Mesh.AddMesh | Elements/src/Geometry/Mesh.cs:270-281 | the other mesh's vertices are appended, and its triangles up to the first one with duplicated vertices, which gives ArgumentException. When the other mesh's vertices are distinct they are re-indexed in place to old count + i; index consistency is kept when they are new to this mesh |
| Meshes.Mesh.AppendVertices | Elements/src/Geometry/Mesh.cs:272-275 | the vertices are appended in order; when distinct they get indices old count + i; UVs and incident triangles are untouched |
| Meshes.Mesh.AppendTriangles | Elements/src/Geometry/Mesh.cs:277-280 | exactly the triangles before the first duplicated one are appended; the outcome is Pass exactly when none is duplicated |
| Meshes.FirstDuplicated | Elements/src/Geometry/Mesh.cs:277-280 | the position of the first triangle with duplicated vertices: every earlier one is valid, and the one there (if any) is not |
| Meshes.Mesh.GetBuffers | Elements/src/Geometry/Mesh.cs:155-174 | one buffer vertex per vertex, with its position, normal, UV and colour; the index buffer is IndexBuffer of the triangles |
| Meshes.IndexBuffer | Elements/src/Geometry/Mesh.cs:165-171 | 3 indices per triangle, in triangle order; entry m is corner m mod 3 of triangle m div 3, its index cut to 16 bits |
| Meshes.ToUshort | Elements/src/Geometry/Mesh.cs:168-170 | an index below 65536 is kept unchanged |
| Meshes.IndexBufferResolves | Elements/src/Geometry/Mesh.cs:165-171 | in an index-consistent mesh whose corners are its own vertices, every buffer entry addresses its corner exactly when all corner indices are below 65536 |
| Meshes.Mesh.GetNakedEdges | Elements/src/Geometry/Mesh.cs:301-318 | the result is NakedEdges of the triangles: per triangle, the edges j to (j+1) mod 3 whose corners share exactly one triangle, in order |
| Meshes.NakedEdges | Elements/src/Geometry/Mesh.cs:304-316 | the naked edges triangle by triangle; at most three per triangle |
| Meshes.TriangleNakedEdges | Elements/src/Geometry/Mesh.cs:306-315 | the naked edges among a triangle's first n edges; at most n of them |
| Meshes.NakedEdgesSound | Elements/src/Geometry/Mesh.cs:304-316 | every naked edge joins corners j and (j+1) mod 3 of some triangle, and those corners share exactly one triangle |
| Meshes.TriangleNakedEdgesSound | Elements/src/Geometry/Mesh.cs:306-315 | each naked edge of one triangle is one of its first n edges whose corners share exactly one triangle |
| Meshes.NakedEdgesComplete | Elements/src/Geometry/Mesh.cs:304-316 | every edge whose corners share exactly one triangle is reported |
| Meshes.TriangleNakedEdgesComplete | Elements/src/Geometry/Mesh.cs:306-315 | within one triangle, every such edge among its first n is reported |
| Meshes.NoIncidenceNoNakedEdges | Elements/src/Geometry/Mesh.cs:301-318 | triangles whose corners record no incident triangles have no naked edges, as for the vertices of a copied mesh |
| Meshes.SharedEdgeIsNotNaked | Elements/src/Geometry/Mesh.cs:310-311 | an edge whose corners both belong to two different triangles is never naked |
| FunctionNames.SanitizeFunctionName | csharp/src/cli/Commands/NewCommand.cs:82-90 | same length; position by position, '_' becomes '-', letters become lower case, everything else is kept; the result has no '_' and no upper-case letter |
| FunctionNames.Replace | csharp/src/cli/Commands/NewCommand.cs:84 | same length; each occurrence of the pattern character is replaced, every other character kept |
| FunctionNames.ToLower | csharp/src/cli/Commands/NewCommand.cs:84 | same length; every character is lower-cased |
| FunctionNames.ToLowerChar | csharp/src/cli/Commands/NewCommand.cs:84 | an upper-case letter becomes the letter 32 code points below; nothing else changes; the result is never upper case |
| FunctionNames.SanitizeIsIdempotent | csharp/src/cli/Commands/NewCommand.cs:84 | sanitising twice equals sanitising once |
| FunctionNames.SanitizeFixedPoints | csharp/src/cli/Commands/NewCommand.cs:84-89 | a name is left unchanged (no rename is logged) exactly when it has no '_' and no upper-case letter |
| FunctionNames.Split | csharp/src/cli/Commands/NewCommand.cs:94 | one more piece than separators, and no piece contains the separator |
| FunctionNames.SplitJoin | csharp/src/cli/Commands/NewCommand.cs:94 | joining the pieces with the separator gives back the name |
| FunctionNames.ToUpperChar | csharp/src/cli/Commands/NewCommand.cs:98 | a lower-case letter becomes the letter 32 code points above; nothing else changes, so '-' maps only to itself; the result is never lower case |
| FunctionNames.Capitalize | csharp/src/cli/Commands/NewCommand.cs:98 | same length; the first character is upper-cased with ToUpperChar and the rest is unchanged |
| FunctionNames.ClassName | csharp/src/cli/Commands/NewCommand.cs:92-101 | IndexOutOfRangeException when some '-'-separated piece is empty; otherwise the in-order concatenation of the pieces, each with its first character upper-cased |
| FunctionNames.CapitalizeAll | csharp/src/cli/Commands/NewCommand.cs:96-99 | the capitalized pieces concatenated in order; as long as the pieces together |
| FunctionNames.CapitalizeAllNoHyphen | csharp/src/cli/Commands/NewCommand.cs:96-99 | pieces without '-' concatenate to a name without '-' |
| FunctionNames.ClassNameSucceedsIff | csharp/src/cli/Commands/NewCommand.cs:94-99 | every piece is non-empty exactly when the name is non-empty, does not start or end with '-', and has no "--" |
| FunctionNames.ClassNameHasNoHyphen | csharp/src/cli/Commands/NewCommand.cs:94-100 | a successful class name has no '-' |
| FunctionNames.ClassNameLength | csharp/src/cli/Commands/NewCommand.cs:94-100 | a successful class name's length is the name's length minus its number of '-' |
| ParametricProfiles.CompilePolygonScriptFromExpressions | Elements/src/Geometry/Profiles/ParametricProfile.cs:62-73 | the text built is PolygonScript of the expressions |
| ParametricProfiles.PolygonScript | Elements/src/Geometry/Profiles/ParametricProfile.cs:64-72 | the script starts with `new Polygon(new[]{` and ends with `})`; it is exactly `new Polygon(new[]{})` when the list is empty |
| ParametricProfiles.Fragment | Elements/src/Geometry/Profiles/ParametricProfile.cs:69 | one vertex's fragment is 16 characters longer than its two expressions together |
| ParametricProfiles.Fragments | Elements/src/Geometry/Profiles/ParametricProfile.cs:67-70 | one fragment per expression in order; 16 characters per expression besides the expressions themselves |
| ParametricProfiles.FragmentAt | Elements/src/Geometry/Profiles/ParametricProfile.cs:67-70 | expression i's fragment sits in the script right after the prefix and the fragments of expressions 0..i-1 |
| ParametricProfiles.FragmentsAppend | Elements/src/Geometry/Profiles/ParametricProfile.cs:67-70 | the fragments of a concatenated list are the two lists' fragments concatenated |
| ParametricProfiles.FragmentsAround | Elements/src/Geometry/Profiles/ParametricProfile.cs:67-70 | the fragments are those before expression i, then its own, then those after it |
| ParametricProfiles.ScriptLength | Elements/src/Geometry/Profiles/ParametricProfile.cs:62-73 | the script is 20 characters, plus 16 per expression pair, plus the expressions' lengths |
| ParametricProfiles.ParametricProfile.constructor | Elements/src/Geometry/Profiles/ParametricProfile.cs:42-60 | both expression lists and the given geometry are stored unchanged; the perimeter script is compiled; there is one void script per void list, in order, and none for a null void list |
| ParametricProfiles.FirstFailing | Elements/src/Geometry/Profiles/ParametricProfile.cs:90-94 | the position of the first script whose evaluation throws: every earlier one evaluates, and the one there (if any) throws |
| ParametricProfiles.ParametricProfile.SetGeometry | Elements/src/Geometry/Profiles/ParametricProfile.cs:78-96 | an empty perimeter list gives ArgumentException with perimeter and voids untouched; a perimeter script that throws gives its exception, also with nothing touched; otherwise the perimeter is the evaluated perimeter script, and the voids are a new list of the void scripts evaluated in order up to the first that throws, whose exception is the outcome (Pass when none throws) |
| Obstacles.Obstacle.constructor | Elements/src/Spatial/AdaptiveGrid/Obstacle.cs:123-129 | points, offset, perimeter flag and frame are stored as given |
| Obstacles.FromColumn | Elements/src/Spatial/AdaptiveGrid/Obstacle.cs:26-35 | 2n points: the profile moved to the column's location, then those points raised by the column's height; no frame; offset (0 by default) and flag (false by default) forwarded |
| Obstacles.FromWall | Elements/src/Spatial/AdaptiveGrid/Obstacle.cs:44-56 | 8 points: the four base corners (both ends shifted half the thickness to each side), then exactly those four raised by the height; the frame is the direction, its horizontal perpendicular and Z |
| Obstacles.WallBase | Elements/src/Spatial/AdaptiveGrid/Obstacle.cs:48-51 | four corners forming a parallelogram: both long sides equal the centre line, they lie a thickness apart along the perpendicular, and the centre line's ends are the midpoints of the short sides |
| Obstacles.WallFootprint | Elements/src/Spatial/AdaptiveGrid/Obstacle.cs:46-51 | the perpendicular FromWall uses is horizontal and orthogonal to the direction, and so is the offset between the two long sides |
| Obstacles.FromBBox | Elements/src/Spatial/AdaptiveGrid/Obstacle.cs:65-68 | the points are the box's corners; no frame; offset and flag forwarded |
| Obstacles.From2DPolygon | Elements/src/Spatial/AdaptiveGrid/Obstacle.cs:78-84 | 2n points: vertex i at Z = 0, then vertex i at Z = height; the input Z is dropped; no frame |
| Obstacles.FromLine | Elements/src/Spatial/AdaptiveGrid/Obstacle.cs:93-114 | fails with ArgumentException exactly when the offset (0.1 by default) is below EPSILON, and succeeds otherwise; the points are [start, end], and the frame is null exactly when the direction is parallel to Z, else LineFrame of the direction |
| Obstacles.LineFrame | Elements/src/Spatial/AdaptiveGrid/Obstacle.cs:108-110 | the frame's three axes are pairwise orthogonal, the second is horizontal, and it is zero exactly when the direction is vertical |

## Left out

- The line network (`Network<T>`: segment intersection, graph building, traversal and closed-region extraction) is not modelled.
- `Obstacle.Intersects` is not in `Obstacle.cs` and is not part of this model.
- `Mesh.FromSTL`: file reading and number parsing.
- `Mesh.ComputeNormals`, `Mesh.Volume`, `SignedVolumeOfTriangle` and `IsInvalid`: floating-point averaging, unit vectors and NaN tests.
- The `merge` branch of `AddVertex(position, …)`: it depends on the external octree and an angle test on floats. `Meshes.Mesh.AddNewVertex` is the non-merging path only, and the octree insertion is dropped with it.
- `GetNakedBoundaries`: it depends on `HalfEdgeGraph2d`, which is not part of this model.
- `TessExtensions.ToMesh`: tessellation library output and texture basis computation.
- `Mesh.ToString`.
- `ElementConverter.cs`: JSON serialisation plumbing and reflection.
- `CreatePolygonFromScriptAsync`: running C# scripts asynchronously. It is the `evaluate` parameter of `SetGeometry`, a function that returns a polygon or the exception the script throws. Script state carried from one evaluation to the next is not modelled, and neither is the exception's type or message: every script failure is `ScriptException`.
- `SetPropertiesFromProfileData`: reflection over fields and properties.
- `Execute`, `New`, `CloneStarterRepo`, `UpdateHyparJson` and the logger calls of the `new` command: process spawning, file and JSON I/O.
- FunctionNames.SanitizeFunctionName: lower-casing is ASCII only; culture-sensitive casing of other letters is not modelled.
- FunctionNames.ClassName: upper-casing is ASCII only.
- Meshes.Triangle.HasDuplicatedVertices: `Triangle.cs` is not part of this model. A duplicated vertex is taken to be two corners at exactly the same position, not within a tolerance.
- Meshes.Mesh.Copy: copies are compared by exact position, as HasDuplicatedVertices is.
- Meshes.Triangle.FromCorners: the normal that the three-vertex `Triangle` constructor computes is not modelled, and is left unspecified.
- `Vertex.Triangles` is given data. Its upkeep by the triangle constructor (in `Triangle.cs`) is not part of this model, so GetNakedEdges reads whatever incidence sets the vertices hold.
- `Vertex.cs` is not part of this model. A vertex holds position, normal, colour, index, UV and incident triangles.
- Obstacles.FromWall, Obstacles.FromLine: `Line.Direction` (a normalised vector) and `Vector3.IsParallelTo` (a tolerance test) are function parameters; cross products are exact on reals.
- Obstacles.FromBBox: `BBox3.Corners` is a function parameter.
- Obstacles.FromColumn: `Polygon.TransformedPolygon` is not part of this model. Applying `new Transform(location)` is modelled as adding the location to each vertex.
- Floating point: all coordinates are exact reals. `Vector3.EPSILON` is taken as 0.00001.
- Object identity and list aliasing: the obstacle factories and profiles hold their lists by value, so later mutation of a shared `List` is not captured.
- Meshes.Mesh.FromLists: a mesh holds its vertex and triangle lists by value. In the source the JSON constructor keeps the caller's list objects, so later AddVertex and AddTriangle calls also change the caller's lists, and two meshes built over one list share it.
- Meshes.Mesh.AddMesh: when the two meshes share a vertex list (possible only through such aliasing), the source's loop grows the list it walks and never ends; the model's meshes cannot share a list, so this case is not represented.
- Meshes.Triangle: a triangle has exactly three corners. The generated `Triangle` holds a vertex list of any length, which deserialisation can produce; GetBuffers and GetNakedEdges would then throw on a short list, and that is not modelled.
- Meshes.Mesh.AddNewVertex: the `merge` and `edgeAngle` parameters are dropped with the merge branch; the `uv`, `normal` and `color` defaults are modelled as zero values.
- ParametricProfiles.ParametricProfile.constructor: a null perimeter expression list (a NullReferenceException in the source) and null inner void lists cannot be expressed. The perimeter list is a plain sequence, so SetGeometry's null test reduces to the empty test.
- Meshes.Mesh.AddMesh: requires a different mesh. Merging a mesh into itself iterates over a list that grows while it is walked, so it never terminates.
- The optional `id` and `name` arguments of the profile constructor belong to the base `Profile` class and are not modelled.
