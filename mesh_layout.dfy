/** The buffers of a regular n-gon drawn as a fan of n wedges around its centre.
    Every rim point is stored twice (copy A at index i, copy B at index i + n) so
    that neighbouring wedges never share a vertex that carries a texture coordinate;
    the centre is the last vertex, index 2n. This module gives each buffer an
    index-by-index reference definition and proves the layout facts about them. */
module MeshLayout {

  datatype Option<T> = None | Some(value: T)

  /** Unity's Vector3, with reals standing for single-precision floats. */
  datatype Vec3 = Vec3(x: real, y: real, z: real)

  /** Unity's Vector2, used here only as a texture coordinate. */
  datatype Vec2 = Vec2(u: real, v: real)

  const Origin: Vec3 := Vec3(0.0, 0.0, 0.0)

  /** Unity's Vector3.forward. */
  const Forward: Vec3 := Vec3(0.0, 0.0, 1.0)

  function Negate(p: Vec3): Vec3
  {
    Vec3(-p.x, -p.y, -p.z)
  }

  /** The engine's Mathf.Sin and Mathf.Cos, left uninterpreted. */
  datatype Trig = Trig(sin: real -> real, cos: real -> real)

  /** Mathf.PI, the single-precision value of pi. */
  const PI: real := 3.1415927410125732421875

  /** The fewest sides a polygon may have. */
  const MINIMUM_COUNT: int := 3

  // ---------------------------------------------------------------- vertices

  /** Rim point i of an n-gon: vertex 0 straight up, the angle growing with i. */
  function PosForVertices(trig: Trig, i: int, n: int, radius: real): (p: Vec3)
    requires n != 0
    ensures p.z == 0.0
    ensures radius == 0.0 ==> p == Origin
  {
    var angle := (2.0 * PI * i as real) / n as real;
    Vec3(radius * trig.sin(angle), radius * trig.cos(angle), 0.0)
  }

  /** Vertex k of the doubled layout: rim point k mod n below 2n, the centre at 2n. */
  function VertexAt(trig: Trig, n: nat, radius: real, k: nat): Vec3
    requires 0 < n && k <= 2 * n
  {
    if k < 2 * n then PosForVertices(trig, k % n, n, radius) else Origin
  }

  function Vertices(trig: Trig, n: nat, radius: real): seq<Vec3>
    requires 0 < n
  {
    seq(2 * n + 1, k requires 0 <= k < 2 * n + 1 => VertexAt(trig, n, radius, k))
  }

  /** Both copies of a rim point coincide, the centre is the origin, and the whole
      polygon lies in the plane z = 0. */
  lemma VerticesLayout(trig: Trig, n: nat, radius: real)
    requires 0 < n
    ensures |Vertices(trig, n, radius)| == 2 * n + 1
    ensures Vertices(trig, n, radius)[2 * n] == Origin
    ensures forall i :: 0 <= i < n ==>
      Vertices(trig, n, radius)[i] == Vertices(trig, n, radius)[i + n] == PosForVertices(trig, i, n, radius)
    ensures forall k :: 0 <= k < 2 * n + 1 ==> Vertices(trig, n, radius)[k].z == 0.0
  {
    var vs := Vertices(trig, n, radius);
    forall i | 0 <= i < n
      ensures vs[i] == vs[i + n] == PosForVertices(trig, i, n, radius)
    {
      ModuloOfCopies(n, i);
    }
    forall k | 0 <= k < 2 * n + 1
      ensures vs[k].z == 0.0
    {
      if k < 2 * n {
        assert vs[k] == PosForVertices(trig, k % n, n, radius);
      }
    }
  }

  lemma ModuloOfCopies(n: nat, i: nat)
    requires i < n
    ensures i % n == i && (i + n) % n == i
  {
  }

  // --------------------------------------------------------------- triangles

  /** The rim point that follows rim point i, wrapping from n - 1 back to 0. */
  function Next(n: nat, i: nat): (j: nat)
    requires i < n
    ensures j < n
  {
    if i + 1 == n then 0 else i + 1
  }

  /** The source's `(i + 1) % n` is the following rim point. */
  lemma NextIsModulo(n: nat, i: nat)
    requires i < n
    ensures (i + 1) % n == Next(n, i)
  {
    if i + 1 == n {
      assert (i + 1) % n == 0;
    }
  }

  /** Entry t of the flat index buffer: triple i is (centre, copy A of i, copy B of i + 1). */
  function CornerAt(n: nat, t: nat): int
    requires 0 < n
  {
    var i := t / 3;
    if t % 3 == 0 then 2 * n
    else if t % 3 == 1 then i
    else (i + 1) % n + n
  }

  function Triangles(n: nat): seq<int>
    requires 0 < n
  {
    seq(3 * n, t requires 0 <= t < 3 * n => CornerAt(n, t))
  }

  /** Triple i of the index buffer, as the wedge from the centre to copy A of rim point
      i and copy B of the next rim point. */
  lemma TriangleTriple(n: nat, i: nat)
    requires i < n
    ensures |Triangles(n)| == 3 * n
    ensures Triangles(n)[3 * i] == 2 * n
    ensures Triangles(n)[3 * i + 1] == i
    ensures Triangles(n)[3 * i + 2] == Next(n, i) + n
  {
    assert (3 * i) / 3 == i && (3 * i) % 3 == 0;
    assert (3 * i + 1) / 3 == i && (3 * i + 1) % 3 == 1;
    assert (3 * i + 2) / 3 == i && (3 * i + 2) % 3 == 2;
    NextIsModulo(n, i);
  }

  /** Every entry of the index buffer names a vertex: it lies in [0, 2n + 1). */
  lemma TrianglesInBounds(n: nat)
    requires 0 < n
    ensures |Triangles(n)| == 3 * n
    ensures forall t :: 0 <= t < 3 * n ==> 0 <= Triangles(n)[t] < 2 * n + 1
  {
    forall t | 0 <= t < 3 * n
      ensures 0 <= Triangles(n)[t] < 2 * n + 1
    {
      TriangleTriple(n, t / 3);
    }
  }

  /** The one place in the index buffer where rim vertex v is used: copy A of rim
      point i is the second corner of wedge i, copy B of rim point j the third corner
      of the wedge before j. */
  function OnlyPosition(n: nat, v: nat): (t: nat)
    requires v < 2 * n
    ensures t < 3 * n
  {
    if v < n then 3 * v + 1
    else if v == n then 3 * (n - 1) + 2
    else 3 * (v - n - 1) + 2
  }

  /** Wedges share only the centre: a rim vertex occurs at exactly one position of
      the index buffer. */
  lemma RimVertexUsedOnce(n: nat, v: nat, t: nat)
    requires v < 2 * n && t < 3 * n
    ensures Triangles(n)[t] == v <==> t == OnlyPosition(n, v)
  {
    var i := t / 3;
    TriangleTriple(n, i);
    assert t == 3 * i + t % 3;
  }

  /** The centre is the first corner of every wedge and occurs nowhere else. */
  lemma CentreInEveryWedge(n: nat, t: nat)
    requires t < 3 * n
    ensures Triangles(n)[t] == 2 * n <==> t % 3 == 0
  {
    var i := t / 3;
    TriangleTriple(n, i);
    assert t == 3 * i + t % 3;
  }

  lemma CountAbsent<T>(s: seq<T>, x: T)
    requires forall t :: 0 <= t < |s| ==> s[t] != x
    ensures multiset(s)[x] == 0
  {
    assert x !in s;
  }

  lemma {:induction false} CountSingle<T>(s: seq<T>, x: T, p: nat)
    requires p < |s|
    requires forall t :: 0 <= t < |s| ==> (s[t] == x <==> t == p)
    ensures multiset(s)[x] == 1
  {
    var m := |s| - 1;
    assert s == s[..m] + [s[m]];
    if m == p {
      CountAbsent(s[..m], x);
    } else {
      CountSingle(s[..m], x, p);
    }
  }

  /** Each rim vertex belongs to exactly one wedge. */
  lemma RimVertexCount(n: nat, v: nat)
    requires v < 2 * n
    ensures multiset(Triangles(n))[v] == 1
  {
    forall t | 0 <= t < 3 * n
      ensures Triangles(n)[t] == v <==> t == OnlyPosition(n, v)
    {
      RimVertexUsedOnce(n, v, t);
    }
    CountSingle(Triangles(n), v, OnlyPosition(n, v));
  }

  lemma {:induction false} CentreCountPrefix(n: nat, k: nat)
    requires 0 < n && k <= n
    ensures multiset(Triangles(n)[..3 * k])[2 * n] == k
  {
    if k > 0 {
      var tris := Triangles(n);
      TriangleTriple(n, k - 1);
      assert tris[..3 * k] == tris[..3 * (k - 1)] + [tris[3 * (k - 1)], tris[3 * (k - 1) + 1], tris[3 * (k - 1) + 2]];
      CentreCountPrefix(n, k - 1);
    }
  }

  /** The centre belongs to all n wedges. */
  lemma CentreCount(n: nat)
    requires 0 < n
    ensures multiset(Triangles(n))[2 * n] == n
  {
    CentreCountPrefix(n, n);
    assert Triangles(n)[..3 * n] == Triangles(n);
  }

  /** Wedge i spans the centre, rim point i and the following rim point. */
  lemma WedgeSpansNeighbours(trig: Trig, n: nat, radius: real, i: nat)
    requires i < n
    ensures var vs, tris := Vertices(trig, n, radius), Triangles(n);
      && vs[tris[3 * i]] == Origin
      && vs[tris[3 * i + 1]] == PosForVertices(trig, i, n, radius)
      && vs[tris[3 * i + 2]] == PosForVertices(trig, Next(n, i), n, radius)
  {
    var vs, tris := Vertices(trig, n, radius), Triangles(n);
    TriangleTriple(n, i);
    var j := Next(n, i);
    assert vs[tris[3 * i + 1]] == vs[i] == VertexAt(trig, n, radius, i);
    assert vs[tris[3 * i + 2]] == vs[j + n] == VertexAt(trig, n, radius, j + n);
    ModuloOfCopies(n, i);
    ModuloOfCopies(n, j);
  }

  // ----------------------------------------------------------------- normals

  /** Every normal faces the viewer: -Vector3.forward. */
  function Normals(count: nat): seq<Vec3>
  {
    seq(count, _ => Negate(Forward))
  }

  // --------------------------------------------------------------------- uvs

  const UvLow: Vec2 := Vec2(0.0, 0.0)
  const UvRight: Vec2 := Vec2(1.0, 0.0)
  const UvHigh: Vec2 := Vec2(1.0, 1.0)
  const UvCentre: Vec2 := Vec2(0.5, 0.5)

  /** The diagnostic texture coordinate of vertex k when wedge `slice` is selected:
      copy A of the selected wedge's first rim point is (1,0), copy B of its second
      rim point is (1,1), other copies A are (0,0), other copies B are (1,0), and the
      centre is (0.5,0.5). */
  function DiagnosticUvAt(n: nat, slice: int, k: nat): Vec2
    requires 0 <= slice < n && k <= 2 * n
  {
    if k == 2 * n then UvCentre
    else if k == slice then UvRight
    else if k < n then UvLow
    else if k == Next(n, slice) + n then UvHigh
    else UvRight
  }

  function DiagnosticUvs(n: nat, slice: int): seq<Vec2>
    requires 0 <= slice < n
  {
    seq(2 * n + 1, k requires 0 <= k < 2 * n + 1 => DiagnosticUvAt(n, slice, k))
  }

  /** The diagnostic buffer index by index: one entry per vertex, the selected wedge's
      copy A at (1,0) and its neighbour's copy B at (1,1), every other copy A at (0,0),
      every other copy B at (1,0), the centre at (0.5,0.5). This restates the case split
      of DiagnosticUvAt in the source's index arithmetic `(slice + 1) % n + n` instead of
      Next; what ties the filling loop to the definition is BuildDiagnosticUvs. */
  lemma DiagnosticUvsLayout(n: nat, slice: int)
    requires 0 <= slice < n
    ensures |DiagnosticUvs(n, slice)| == 2 * n + 1
    ensures DiagnosticUvs(n, slice)[slice] == UvRight
    ensures DiagnosticUvs(n, slice)[(slice + 1) % n + n] == UvHigh
    ensures DiagnosticUvs(n, slice)[2 * n] == UvCentre
    ensures forall k :: 0 <= k < n && k != slice ==> DiagnosticUvs(n, slice)[k] == UvLow
    ensures forall k :: n <= k < 2 * n && k != (slice + 1) % n + n ==> DiagnosticUvs(n, slice)[k] == UvRight
  {
    NextIsModulo(n, slice);
  }

  /** The texture coordinates at the three corners of wedge i. */
  function WedgeUvs(n: nat, uvs: seq<Vec2>, i: nat): seq<Vec2>
    requires i < n && |uvs| == 2 * n + 1
  {
    var tris := Triangles(n);
    TrianglesInBounds(n);
    [uvs[tris[3 * i]], uvs[tris[3 * i + 1]], uvs[tris[3 * i + 2]]]
  }

  const SelectedCorners: seq<Vec2> := [UvCentre, UvRight, UvHigh]
  const PlainCorners: seq<Vec2> := [UvCentre, UvLow, UvRight]

  /** With the diagnostic coordinates, the selected wedge has corners
      (0.5,0.5), (1,0), (1,1) and every other wedge (0.5,0.5), (0,0), (1,0). */
  lemma DiagnosticWedgeCorners(n: nat, slice: int, i: nat)
    requires 0 <= slice < n && i < n
    ensures WedgeUvs(n, DiagnosticUvs(n, slice), i) == if i == slice then SelectedCorners else PlainCorners
  {
    TriangleTriple(n, i);
    if i != slice {
      assert Next(n, i) != Next(n, slice);
    }
  }

  /** Exactly one wedge, the selected one, carries the selected corners. */
  lemma OnlySelectedWedgeDiffers(n: nat, slice: int, i: nat)
    requires 0 <= slice < n && i < n
    ensures WedgeUvs(n, DiagnosticUvs(n, slice), i) == SelectedCorners <==> i == slice
  {
    DiagnosticWedgeCorners(n, slice, i);
    assert SelectedCorners[1] != PlainCorners[1];
  }

  /** The fixed table used when no live selection is available. */
  const BAKED_UVS: seq<Vec2> := [
    UvRight, UvLow, UvLow, UvLow, UvLow, UvLow,
    UvRight, UvHigh, UvRight, UvRight, UvRight, UvRight,
    UvCentre
  ]

  /** The fixed table fits the vertex buffer of a hexagon and of no other polygon. */
  lemma BakedTableFitsOnlyHexagon(n: nat)
    ensures |BAKED_UVS| == 2 * n + 1 <==> n == 6
  {
  }

  /** For a hexagon the fixed table is the diagnostic assignment with wedge 0 selected. */
  lemma BakedTableIsSliceZero()
    ensures BAKED_UVS == DiagnosticUvs(6, 0)
  {
    var d := DiagnosticUvs(6, 0);
    assert forall k :: 0 <= k < 13 ==> BAKED_UVS[k] == d[k];
  }

  // -------------------------------------------------------------------- mesh

  /** The two ways of filling the texture coordinates: from a live selection, or
      from the fixed table. */
  datatype UvMode = Diagnostic | Baked

  /** What the engine's mesh keeps once the four buffers are assigned to it. */
  datatype Mesh = Mesh(vertices: seq<Vec3>, triangles: seq<int>, normals: seq<Vec3>, uv: seq<Vec2>)

  function Uvs(n: nat, mode: UvMode, slice: int): seq<Vec2>
    requires mode == Diagnostic ==> 0 <= slice < n
  {
    if mode == Diagnostic then DiagnosticUvs(n, slice) else BAKED_UVS
  }

  /** The geometry of an n-gon of the given radius: vertices, wedges and normals agree
      with the reference layout; the texture coordinates are left free. */
  ghost predicate HasGeometry(m: Mesh, trig: Trig, n: nat, radius: real)
    requires 0 < n
  {
    && m.vertices == Vertices(trig, n, radius)
    && m.triangles == Triangles(n)
    && m.normals == Normals(|m.vertices|)
  }

  /** The buffers agree in length and every wedge corner names a vertex. */
  ghost predicate WellFormed(m: Mesh)
  {
    && |m.vertices| % 2 == 1
    && |m.triangles| == 3 * (|m.vertices| / 2)
    && |m.normals| == |m.vertices|
    && forall t :: 0 <= t < |m.triangles| ==> 0 <= m.triangles[t] < |m.vertices|
  }

  /** Any mesh with the reference geometry is well formed. */
  lemma GeometryWellFormed(m: Mesh, trig: Trig, n: nat, radius: real)
    requires 0 < n && HasGeometry(m, trig, n, radius)
    ensures WellFormed(m)
    ensures |m.vertices| == 2 * n + 1
  {
    VerticesLayout(trig, n, radius);
    TrianglesInBounds(n);
  }

  /** The texture buffer has the vertex buffer's length unless the fixed table is used
      on anything but a hexagon. */
  lemma UvLengthMismatch(n: nat, mode: UvMode, slice: int)
    requires mode == Diagnostic ==> 0 <= slice < n
    ensures |Uvs(n, mode, slice)| != 2 * n + 1 <==> mode == Baked && n != 6
  {
    BakedTableFitsOnlyHexagon(n);
  }
}
