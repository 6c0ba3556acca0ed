/**
 * The vector and tetrahedron values shared by the mesh generators and the
 * projector. Unity's single-precision `Vector2/3/4` are modelled over `real`.
 */
module Geometry {

  datatype Vec2 = Vec2(x: real, y: real)
  datatype Vec3 = Vec3(x: real, y: real, z: real)
  datatype Vec4 = Vec4(x: real, y: real, z: real, w: real)

  const Zero4: Vec4 := Vec4(0.0, 0.0, 0.0, 0.0)

  /** The indexer `v[i]` of a `Vector4` (0 = x, 1 = y, 2 = z, 3 = w). */
  function Get(v: Vec4, i: nat): real
    requires i < 4
  {
    match i
    case 0 => v.x
    case 1 => v.y
    case 2 => v.z
    case 3 => v.w
  }

  /** `pos = Vector4.zero; pos[i] = value;` — the point at `value` on axis `i`. */
  function Axis(i: nat, value: real): (r: Vec4)
    requires i < 4
    ensures Get(r, i) == value
    ensures forall c :: 0 <= c < 4 && c != i ==> Get(r, c) == 0.0
  {
    match i
    case 0 => Vec4(value, 0.0, 0.0, 0.0)
    case 1 => Vec4(0.0, value, 0.0, 0.0)
    case 2 => Vec4(0.0, 0.0, value, 0.0)
    case 3 => Vec4(0.0, 0.0, 0.0, value)
  }

  /** The squared Euclidean distance. */
  function SqDist(a: Vec4, b: Vec4): real {
    (a.x - b.x) * (a.x - b.x) + (a.y - b.y) * (a.y - b.y) + (a.z - b.z) * (a.z - b.z) + (a.w - b.w) * (a.w - b.w)
  }

  /** Points on two different axes, at `u` and `v`, are at squared distance `u * u + v * v`. */
  lemma AxisSqDist(i: nat, j: nat, u: real, v: real)
    requires i < 4 && j < 4 && i != j
    ensures SqDist(Axis(i, u), Axis(j, v)) == u * u + v * v
  {
    match i {
      case 0 =>
      case 1 =>
      case 2 =>
      case 3 =>
    }
  }

  /** A tetrahedron: four indices into a vertex list (`Tet4D.tetPoints`). */
  datatype Tet4D = Tet4D(p0: int, p1: int, p2: int, p3: int)
  {
    function Points(): seq<int> { [p0, p1, p2, p3] }
  }

  /** No tetrahedron may reference the same vertex twice. */
  predicate DistinctCorners(t: Tet4D) {
    t.p0 != t.p1 && t.p0 != t.p2 && t.p0 != t.p3 &&
    t.p1 != t.p2 && t.p1 != t.p3 && t.p2 != t.p3
  }

  /** Every index of `t` lies in `[lo, hi)`. */
  predicate CornersIn(t: Tet4D, lo: int, hi: int) {
    lo <= t.p0 < hi && lo <= t.p1 < hi && lo <= t.p2 < hi && lo <= t.p3 < hi
  }

  /** The mesh invariant for one tetrahedron over `n` vertices. */
  predicate ValidTet(t: Tet4D, n: int) {
    DistinctCorners(t) && CornersIn(t, 0, n)
  }

  /** `n` clamped below at zero: the number of iterations of a loop over `[0, n)`. */
  function Max0(n: int): nat { if n < 0 then 0 else n }
}
