/** The polygon-mesh component: it remembers the side count and radius it last built
    and fills the four buffers of the engine's mesh, one loop per buffer. */
module PolyMeshComponent {
  import opened MeshLayout

  /** The outcome of a call to Generate: the side-count guard threw, or the buffers
      were built and the texture buffer did or did not match the vertex buffer in
      length (the engine only logs the mismatch). */
  datatype GenerateOutcome = TooFewSides | Generated(uvLengthMismatch: bool)

  /** Both copies of every rim point, then the centre. */
  method BuildVertices(trig: Trig, radius: real, n: nat) returns (vertices: array<Vec3>)
    requires 0 < n
    ensures vertices[..] == Vertices(trig, n, radius)
  {
    vertices := new Vec3[n * 2 + 1](_ => Origin);
    for i := 0 to n
      invariant forall k :: 0 <= k < i ==> vertices[k] == PosForVertices(trig, k, n, radius)
      invariant forall k :: n <= k < n + i ==> vertices[k] == PosForVertices(trig, k - n, n, radius)
    {
      vertices[i] := PosForVertices(trig, i, n, radius);
      vertices[i + n] := PosForVertices(trig, i, n, radius);
    }
    vertices[n * 2] := Origin;
    forall k | 0 <= k < 2 * n
      ensures vertices[k] == VertexAt(trig, n, radius, k)
    {
      if k < n {
        ModuloOfCopies(n, k);
      } else {
        ModuloOfCopies(n, k - n);
      }
    }
  }

  /** One triple per wedge: the centre, copy A of rim point i, copy B of the next. */
  method BuildTriangles(n: nat) returns (triangles: array<int>)
    requires 0 < n
    ensures triangles[..] == Triangles(n)
  {
    triangles := new int[n * 3];
    for i := 0 to n
      invariant forall t :: 0 <= t < 3 * i ==> triangles[t] == CornerAt(n, t)
    {
      triangles[i * 3] := n * 2;
      triangles[(i * 3) + 1] := i;
      triangles[(i * 3) + 2] := (i + 1) % n + n;
      assert (3 * i) / 3 == i && (3 * i) % 3 == 0;
      assert (3 * i + 1) / 3 == i && (3 * i + 1) % 3 == 1;
      assert (3 * i + 2) / 3 == i && (3 * i + 2) % 3 == 2;
    }
  }

  /** One normal per vertex, every one of them -Vector3.forward. */
  method BuildNormals(vertices: array<Vec3>) returns (normals: array<Vec3>)
    ensures normals.Length == vertices.Length
    ensures forall k :: 0 <= k < normals.Length ==> normals[k] == Vec3(0.0, 0.0, -1.0)
    ensures normals[..] == Normals(vertices.Length)
  {
    normals := new Vec3[vertices.Length](_ => Origin);
    for i := 0 to vertices.Length
      invariant forall k :: 0 <= k < i ==> normals[k] == Negate(Forward)
    {
      normals[i] := Negate(Forward);
    }
  }

  /** The diagnostic texture coordinates: copies A at (0,0) and copies B at (1,0),
      then the selected wedge's two rim corners and the centre overwritten. */
  method BuildDiagnosticUvs(vertices: array<Vec3>, n: nat, slice: int) returns (uvs: array<Vec2>)
    requires 0 <= slice < n && vertices.Length == n * 2 + 1
    ensures uvs[..] == DiagnosticUvs(n, slice)
  {
    uvs := new Vec2[vertices.Length](_ => UvLow);
    for i := 0 to n
      invariant forall k :: 0 <= k < i ==> uvs[k] == UvLow
      invariant forall k :: n <= k < n + i ==> uvs[k] == UvRight
    {
      uvs[i] := UvLow;
      uvs[i + n] := UvRight;
    }
    uvs[slice] := UvRight;
    NextIsModulo(n, slice);
    uvs[(slice + 1) % n + n] := UvHigh;
    uvs[n * 2] := UvCentre;
  }

  /** The component: the side count and radius of the last successful generation, and
      the mesh the engine renders. */
  class PolyMesh {
    var Count: int
    var Radius: real
    var mesh: Option<Mesh>

    /** The engine's trigonometry. */
    const mathf: Trig

    /** The side count never drops below the minimum, and a generated mesh always has
        the geometry of the current side count and radius. */
    ghost predicate Valid()
      reads this
    {
      && Count >= MINIMUM_COUNT
      && (mesh.Some? ==> HasGeometry(mesh.value, mathf, Count, Radius) && WellFormed(mesh.value))
    }

    /** A fresh component: a hexagon of radius 3.5, no mesh built yet. */
    constructor (mathf: Trig)
      ensures Valid()
      ensures this.mathf == mathf
      ensures Count == 6 && Radius == 3.5 && mesh == None
    {
      this.mathf := mathf;
      Count := 6;
      Radius := 3.5;
      mesh := None;
    }

    /** Rebuilds the mesh for the current radius and side count. */
    method UpdateMesh(mode: UvMode, slice: int) returns (outcome: GenerateOutcome)
      requires Valid()
      requires mode == Diagnostic ==> 0 <= slice < Count
      modifies this
      ensures Valid()
      ensures Count == old(Count) && Radius == old(Radius)
      ensures outcome == Generated(mode == Baked && Count != 6)
      ensures mesh == Some(Mesh(Vertices(mathf, Count, Radius), Triangles(Count),
                                Normals(2 * Count + 1), Uvs(Count, mode, slice)))
    {
      outcome := Generate(Radius, Count, mode, slice);
    }

    /** Builds the buffers of an n-gon of the given radius and hands them to the mesh.
        Fewer than MINIMUM_COUNT sides is refused before anything changes. In diagnostic
        mode the selected wedge is `slice`; in baked mode the fixed table is used. */
    method Generate(radius: real, n: int, mode: UvMode, slice: int) returns (outcome: GenerateOutcome)
      requires Valid()
      requires mode == Diagnostic && n >= MINIMUM_COUNT ==> 0 <= slice < n
      modifies this
      ensures Valid()
      ensures n < MINIMUM_COUNT ==>
        outcome == TooFewSides && Count == old(Count) && Radius == old(Radius) && mesh == old(mesh)
      ensures n >= MINIMUM_COUNT ==>
        && outcome == Generated(mode == Baked && n != 6)
        && Count == n && Radius == radius
        && mesh == Some(Mesh(Vertices(mathf, n, radius), Triangles(n), Normals(2 * n + 1), Uvs(n, mode, slice)))
    {
      if n < MINIMUM_COUNT {
        return TooFewSides;
      }

      Radius := radius;
      Count := n;

      var vertices := BuildVertices(mathf, radius, n);
      var triangles := BuildTriangles(n);
      var normals := BuildNormals(vertices);

      var uvs: seq<Vec2>;
      if mode == Diagnostic {
        var computed := BuildDiagnosticUvs(vertices, n, slice);
        uvs := computed[..];
      } else {
        uvs := BAKED_UVS;
      }

      var mismatch := |uvs| != vertices.Length;
      UvLengthMismatch(n, mode, slice);

      mesh := Some(Mesh(vertices[..], triangles[..], normals[..], uvs));
      GeometryWellFormed(mesh.value, mathf, n, radius);
      outcome := Generated(mismatch);
    }
  }
}
